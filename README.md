# bankops: cleaning, quality checks and KPIs, modelled in Dafny

bankops is a batch pipeline over payment transactions. This project models
its three pieces of domain logic and proves what they promise:

- **Cleaning transform** (`etl.dfy`, module `Etl`). A raw batch becomes a
  clean batch in these steps:
  - rows with a null timestamp or a null amount are dropped;
  - amounts are coerced, and an unparseable amount becomes 0.0;
  - channel and status are normalised and country is defaulted;
  - amounts are filtered to [0, 10000];
  - ids are deduplicated, keeping the first row.
- **Quality checker** (`quality_checks.dfy`, module `QualityChecks`). A fixed
  battery of eight checks runs over a dataframe. Each check gives PASS or
  FAIL and the rows that failed it. A summary then counts the failures.
- **KPI aggregator** (`kpis.dfy`, module `Kpis`). It computes guarded rates,
  the overall summary, the grouped summaries and the five report groupings.

`records.dfy` (module `Records`) holds the shared row type. A row is a
record of nullable columns. It also holds the boolean-mask row selection
(`Where`) with its facts: membership, order and concatenation.

Modelling choices:

- A batch is a `seq` of rows, and every column is an `Option`.
- Timestamps are whole seconds since 1970-01-01 00:00.
- Amounts and rates are `real`.
- The raw amount is `Missing | Unparseable | Num(v)`. This is what numeric
  coercion can see.
- A float cell of the KPI tables is `Finite(v) | NaN | PosInf`. This lets
  the model express the unguarded divisions of the grouped rates and the
  mean of no values.
- A dataframe seen by the checker is its column labels (strings) plus its
  rows. The schema check reads each label as a `Column`: one of the seven
  pipeline columns, or `OtherCol(name)` for any other label (`ColumnOf`;
  `Label` writes a column back). Columns read this way are equal exactly
  when their labels are, so the check compares labels as the code does.
- A grouped summary is a `map` from grouping key to the group's KPIs.

### Behaviour of the code that its names and steps do not suggest

- **Channel and status membership.** The cleaning step upper-cases channel
  and status, which reads as meant to accept lower-case spellings. But it
  tests membership on the original value, so the upper-casing never rescues
  a value: lower-case `"app"` becomes `"WEB"` and `"approved"` becomes
  `"DECLINED"`. See `Etl.LowerCaseFallsBackToDefault`.
- **Null amounts.** A null amount drops the row before coercion. Only a
  non-null unparseable amount becomes 0.0 (`Etl.UnparseableAmountSurvives`).
- **Group totals.** A group's `total_tx` reads as its row count, like the
  overall `total_tx`. The code counts the non-null `tx_id`s, and its four
  rates divide by that count without a guard. So:
  - a group's rate can exceed 1, or be NaN or +inf
    (`Kpis.NullIdInflatesGroupRate`);
  - group totals add up to the overall total when every id is present,
    whatever the dimensions (`Kpis.GroupTotalsAddUp`).
- **Missing columns.** The checker indexes `tx_id`, `tx_timestamp`, `status`
  and `amount` directly, so a frame without one of their labels raises
  instead of reporting. With one of these labels repeated, `df[label]` is a
  frame rather than a column, and the check raises or reports FAIL, never
  PASS. So each of the four labels occurring exactly once is a precondition
  (`HasIndexedColumns`). The schema check still reports every missing or
  extra column.

## Model

| member | source | states |
|---|---|---|
| Etl.NormalizeChannel | src/bankops/etl.py:54 | the result is always in CHANNELS; an original value already in CHANNELS is kept; anything else, null and lower case included, becomes WEB |
| Etl.NormalizeStatus | src/bankops/etl.py:55 | the result is always in STATUSES; an original value already in STATUSES is kept; anything else, null and lower case included, becomes DECLINED |
| Etl.AllowedValuesAreUpperCase | src/bankops/etl.py:18-19 | every allowed channel and status is upper case, so upper-casing a kept value leaves it unchanged |
| Etl.FillCountry | src/bankops/etl.py:56 | a null country becomes CO, and a non-null one is kept |
| Etl.CoerceAmount | src/bankops/etl.py:52 | a parsed number is kept, and an unparseable (or null) amount becomes 0.0 |
| Etl.Normalize | src/bankops/etl.py:52-56 | id, merchant and timestamp pass through; channel and status land in their domains; country and amount become non-null |
| Etl.NormalizeAll | src/bankops/etl.py:52-56 | the column-wise rules keep the length and apply Normalize to each row |
| Etl.DedupFrom | src/bankops/etl.py:60 | deduplication never lengthens the batch, keeps only input rows whose id was not seen, and yields pairwise distinct ids |
| Etl.HasTimestampAndAmount | src/bankops/etl.py:51 | a row that passes keeps a timestamp; a null amount fails; a row with a timestamp and an unparseable amount passes and its amount becomes 0.0 |
| Etl.AmountInBounds | src/bankops/etl.py:58 | a row passes only with an amount in [0, 10000]; both 0.0 and 10000.0 pass; a null amount fails |
| Etl.DedupById | src/bankops/etl.py:60 | the result is no longer than the input, holds only input rows, has pairwise distinct ids, and equals the input when its ids are already distinct |
| Etl.Survivors | src/bankops/etl.py:50-58 | the rows reaching deduplication are no more than the input rows, and each has a timestamp, an amount in [0, 10000], a channel and status in their domains and a country |
| Etl.UpperOfUpperCase | src/bankops/etl.py:54-55 | upper-casing an upper-case value leaves it unchanged |
| Etl.NormalizeKeepsSubseq | src/bankops/etl.py:52-56 | normalising row by row keeps the subsequence relation between batches |
| Etl.Clean | src/bankops/etl.py:47-61 | the output is no longer than the input; every output row has a timestamp, an amount in [0, 10000], a channel in CHANNELS, a status in STATUSES and a country; ids are pairwise distinct |
| Etl.DedupIsSubseq | src/bankops/etl.py:60 | deduplication keeps the input order |
| Etl.DedupKeepsFirst | src/bankops/etl.py:60 | every kept row is the first input row with its id |
| Etl.DedupKeepsEveryId | src/bankops/etl.py:60 | every id not seen before is kept |
| Etl.DedupOfDistinct | src/bankops/etl.py:60 | a batch with distinct, unseen ids is left unchanged |
| Etl.CleanKeepsOrder | src/bankops/etl.py:50-60 | the clean batch is a subsequence of the normalised input, so survivors keep their order |
| Etl.CleanRowsComeFromInput | src/bankops/etl.py:48-60 | no row is invented: each clean row is the normalisation of an input row that had a timestamp and a non-null amount |
| Etl.CleanKeepsFirstOccurrence | src/bankops/etl.py:58-60 | each clean row is the first row with its id among those that pass the amount filter |
| Etl.CleanKeepsEveryId | src/bankops/etl.py:58-60 | no id that passes the amount filter is lost by deduplication |
| Etl.CleanKeepsEveryInputId | src/bankops/etl.py:50-60 | every input row with a timestamp, a non-null amount and a coerced amount in [0, 10000] has its id in the clean batch |
| Etl.UnparseableAmountSurvives | src/bankops/etl.py:51-52 | a row with a timestamp and an unparseable non-null amount gets amount 0.0, and its id is in the clean batch |
| Etl.CleanIdempotent | src/bankops/etl.py:50-60 | cleaning a clean batch again returns it unchanged |
| Etl.LowerCaseFallsBackToDefault | src/bankops/etl.py:54-55 | "app" becomes WEB, "approved" and "SOMETHING_ELSE" become DECLINED, and "POS" stays POS |
| Etl.DuplicateIdKeepsFirst | src/bankops/etl.py:60 | of two rows with id A1, only the first survives |
| Records.Where | src/bankops/src/bankops/src/bankops/quality_checks.py:52-54 | a mask selection is never longer than the frame |
| Records.WhereKeepsAll | src/bankops/src/bankops/src/bankops/quality_checks.py:52-54 | a mask that every row passes selects the whole frame |
| Records.WhereSamePredicate | src/bankops/src/bankops/src/bankops/quality_checks.py:52-98 | masks that agree on every row select the same rows |
| Records.Without | src/bankops/src/bankops/src/bankops/quality_checks.py:42 | removing the labels present keeps at most the expected columns |
| Records.WithoutIsWhere | src/bankops/src/bankops/src/bankops/quality_checks.py:42 | the missing columns are the expected columns selected by non-membership, in expected order |
| Records.WhereMembers | src/bankops/src/bankops/src/bankops/quality_checks.py:52-54 | a mask selection holds exactly the rows that satisfy the mask, and is empty exactly when no row does |
| Records.WhereIsSubseq | src/bankops/src/bankops/src/bankops/quality_checks.py:52-54 | a mask selection keeps the rows in input order |
| Records.WhereAppend | src/bankops/src/bankops/kpis.py:57-75 | selecting from a concatenation is concatenating the selections |
| QualityChecks.IndexedLabelsNotRepeated | src/bankops/src/bankops/src/bankops/quality_checks.py:52-98 | in a frame the checker reports on, a label that occurs twice is never one of `tx_id`, `tx_timestamp`, `status`, `amount` |
| QualityChecks.ColumnOf | src/bankops/src/bankops/src/bankops/quality_checks.py:14-17 | reading a label gives a column with that label; the column is an extra one exactly when no expected column has that label |
| QualityChecks.ColumnsOf | src/bankops/src/bankops/src/bankops/quality_checks.py:42-43 | reading the frame's labels gives one column per label |
| QualityChecks.ColumnsOfLabels | src/bankops/src/bankops/src/bankops/quality_checks.py:42-43 | each column read from a label carries that label and is in read form |
| QualityChecks.LabelsIdentifyColumns | src/bankops/src/bankops/src/bankops/quality_checks.py:42-43 | two columns read from labels are equal exactly when their labels are |
| QualityChecks.ExpectedIffNamed | src/bankops/src/bankops/src/bankops/quality_checks.py:14-17 | a column is in EXPECTED_COLS exactly when it is one of the seven pipeline columns |
| QualityChecks.MissingColumns | src/bankops/src/bankops/src/bankops/quality_checks.py:42 | at most the seven expected columns can be missing |
| QualityChecks.ExtraColumns | src/bankops/src/bankops/src/bankops/quality_checks.py:43 | the extra columns are a subsequence of the frame's columns, in frame order |
| QualityChecks.SchemaCheck | src/bankops/src/bankops/src/bankops/quality_checks.py:42-49 | the entry is named schema_columns, carries the two column lists, and FAILs exactly when an expected column is absent |
| QualityChecks.SchemaColumnsReported | src/bankops/src/bankops/src/bankops/quality_checks.py:42-49 | missing lists exactly the absent expected columns in expected order; extra lists exactly the unexpected columns in frame order; FAIL exactly when an expected column is missing, so extra columns never cause FAIL |
| QualityChecks.ExpectedAmongLabels | src/bankops/src/bankops/src/bankops/quality_checks.py:42 | an expected column is among the columns read from the labels exactly when its label is in the list |
| QualityChecks.ExtraAmongLabels | src/bankops/src/bankops/src/bankops/quality_checks.py:43 | an extra column read from the labels carries a label of the list that no expected column has |
| QualityChecks.UnexpectedLabelIsExtra | src/bankops/src/bankops/src/bankops/quality_checks.py:43 | every label that no expected column has is listed as an extra column |
| QualityChecks.SchemaFailsOverLabels | src/bankops/src/bankops/src/bankops/quality_checks.py:42-46 | schema_columns FAILs exactly when one of the seven expected labels is absent from the frame's labels |
| QualityChecks.SchemaOverLabels | src/bankops/src/bankops/src/bankops/quality_checks.py:42-49 | over the frame's labels: FAIL exactly when an expected label is absent; the extra columns are exactly the frame's labels that are not expected |
| QualityChecks.Occurrences | src/bankops/src/bankops/src/bankops/quality_checks.py:81 | the number of rows carrying an id is at most the row count |
| QualityChecks.OccurrencesOfPair | src/bankops/src/bankops/src/bankops/quality_checks.py:81 | two rows with the same id make it occur at least twice |
| QualityChecks.PairOfOccurrences | src/bankops/src/bankops/src/bankops/quality_checks.py:81 | an id that occurs at least twice is carried by two distinct rows |
| QualityChecks.RepeatedIffPair | src/bankops/src/bankops/src/bankops/quality_checks.py:81 | an id occurs more than once exactly when two distinct rows carry it |
| QualityChecks.IdRepeated | src/bankops/src/bankops/src/bankops/quality_checks.py:81 | a row is a duplicate (keep=False) exactly when two distinct rows carry its id, itself possibly one of them |
| QualityChecks.DuplicateIdRows | src/bankops/src/bankops/src/bankops/quality_checks.py:81 | the duplicate rows are exactly the rows whose id occurs more than once, in input order |
| QualityChecks.DuplicatesIncludeEveryCopy | src/bankops/src/bankops/src/bankops/quality_checks.py:81 | both rows of every pair that shares an id are exported, the first occurrence included |
| QualityChecks.DuplicatesHaveACopy | src/bankops/src/bankops/src/bankops/quality_checks.py:81 | every exported row shares its id with another row |
| QualityChecks.NoDuplicatesIffDistinct | src/bankops/src/bankops/src/bankops/quality_checks.py:81-84 | no duplicate is exported exactly when the ids are pairwise distinct |
| QualityChecks.FailExport | src/bankops/src/bankops/src/bankops/quality_checks.py:31-36 | the export is None exactly when no row failed, and otherwise is the failing rows |
| QualityChecks.VerdictOfWhere | src/bankops/src/bankops/src/bankops/quality_checks.py:57 | a row check gives FAIL exactly when some row satisfies its mask |
| QualityChecks.Entry | src/bankops/src/bankops/src/bankops/quality_checks.py:44-104 | the k-th entry carries the k-th check name |
| QualityChecks.Checks | src/bankops/src/bankops/src/bankops/quality_checks.py:44-104 | the eight entries are schema_columns, not_null_keys, not_null_timestamp, not_null_status, status_domain, unique_tx_id, amount_range and timestamp_window, in that order, whatever the frame |
| QualityChecks.ChecksListed | src/bankops/src/bankops/src/bankops/quality_checks.py:44-104 | the report list is the eight entries, one after the other |
| QualityChecks.SchemaVerdict | src/bankops/src/bankops/src/bankops/quality_checks.py:42-49 | schema_columns fails exactly when an expected column is missing |
| QualityChecks.NotNullVerdicts | src/bankops/src/bankops/src/bankops/quality_checks.py:52-69 | each not-null check fails exactly when some row has a null in its column |
| QualityChecks.StatusDomainVerdict | src/bankops/src/bankops/src/bankops/quality_checks.py:72-78 | status_domain fails exactly when some status is null or outside the four-value set |
| QualityChecks.UniqueIdVerdict | src/bankops/src/bankops/src/bankops/quality_checks.py:81-86 | unique_tx_id fails exactly when two rows share an id |
| QualityChecks.AmountRangeVerdict | src/bankops/src/bankops/src/bankops/quality_checks.py:89-95 | amount_range fails exactly when some amount is null, below 0.0 or above 100000.0; the bounds pass |
| QualityChecks.TimestampWindowVerdict | src/bankops/src/bankops/src/bankops/quality_checks.py:98-104 | timestamp_window fails exactly when some timestamp is null, before 2018-01-01 00:00 or after 2030-12-31 00:00 |
| QualityChecks.FailingRowsInInputOrder | src/bankops/src/bankops/src/bankops/quality_checks.py:52-104 | each row check fails exactly when it exports a row; it exports exactly the offending rows, in input order |
| QualityChecks.NullRowsExported | src/bankops/src/bankops/src/bankops/quality_checks.py:52-69 | the verdict and export of each not-null check are those of its rows with a null |
| QualityChecks.DomainRowsExported | src/bankops/src/bankops/src/bankops/quality_checks.py:72-104 | the verdict and export of status_domain, unique_tx_id, amount_range and timestamp_window are those of their offending rows |
| QualityChecks.OffendingRowsExported | src/bankops/src/bankops/src/bankops/quality_checks.py:52-104 | the verdict and export of each row check are those of the selection of offending rows |
| QualityChecks.DuplicatesExported | src/bankops/src/bankops/src/bankops/quality_checks.py:81-86 | unique_tx_id exports the duplicate rows and fails exactly when there is one |
| QualityChecks.FailCount | src/bankops/src/bankops/src/bankops/quality_checks.py:108 | the number of FAIL entries is at most the number of entries, and is 0 exactly when every entry passes |
| QualityChecks.CountFailed | src/bankops/src/bankops/src/bankops/quality_checks.py:108 | the counting loop returns the number of FAIL entries |
| QualityChecks.BuildChecks | src/bankops/src/bankops/src/bankops/quality_checks.py:39-104 | the entries appended one by one are exactly the eight entries of the battery, in order |
| QualityChecks.EightPass | src/bankops/src/bankops/src/bankops/quality_checks.py:108-113 | eight entries have no FAIL exactly when each of the eight passes |
| QualityChecks.RunQualityChecks | src/bankops/src/bankops/src/bankops/quality_checks.py:38-114 | the report holds the eight entries in order; rows_evaluated is the row count; checks_total is 8; checks_failed is the number of FAIL entries; passed holds exactly when checks_failed is 0, that is, when every entry passes |
| QualityChecks.CleanedBatchPasses | src/bankops/etl.py:51-60 | a cleaned batch passes not_null_timestamp, not_null_status, status_domain, unique_tx_id and amount_range |
| QualityChecks.PassConditions | src/bankops/src/bankops/src/bankops/quality_checks.py:44-104 | for each of the eight checks, what it takes to pass |
| QualityChecks.PassesIffWellFormed | src/bankops/src/bankops/src/bankops/quality_checks.py:107-113 | no check fails exactly when all expected columns are present, every row is well formed and the ids are distinct |
| QualityChecks.ExpectedLabelsPresent | src/bankops/src/bankops/src/bankops/quality_checks.py:14-17 | a frame labelled with exactly the seven expected labels has the four indexed columns and every expected label |
| QualityChecks.WellFormedBatchPasses | src/bankops/src/bankops/src/bankops/tests/test_quality_checks.py:12-15 | the two-row batch A1/A2 fails no check |
| QualityChecks.UnknownStatusFails | src/bankops/src/bankops/src/bankops/tests/test_quality_checks.py:17-21 | with status SOMETHING_ELSE, status_domain fails |
| QualityChecks.RepeatedFirstRow | src/bankops/src/bankops/src/bankops/quality_checks.py:81 | in [r1, r2, r1] with different ids, both copies of r1, and only they, are duplicates |
| QualityChecks.CopiedRowIsDuplicated | src/bankops/src/bankops/src/bankops/tests/test_quality_checks.py:23-26 | appending a copy of A1 makes both copies the duplicates |
| QualityChecks.DuplicateIdFails | src/bankops/src/bankops/src/bankops/tests/test_quality_checks.py:23-26 | appending a copy of A1 makes unique_tx_id fail and export both copies |
| Kpis.Rate | src/bankops/src/bankops/kpis.py:18-19 | the rate is 0.0 when the denominator is zero, otherwise it times the denominator is the numerator; it lies in [0, 1] when numer <= denom |
| Kpis.Divide | src/bankops/src/bankops/kpis.py:68-71 | the unguarded division gives NaN for 0/0 and +inf for n/0 with n > 0, and otherwise a finite quotient, in [0, 1] when numer <= denom |
| Kpis.Statuses | src/bankops/src/bankops/kpis.py:34-37 | the status column has one entry per row, each that row's status |
| Kpis.CountStatus | src/bankops/src/bankops/kpis.py:34-37 | a status count is at most the row count, and is 0 exactly when no row has that status; a null status matches nothing |
| Kpis.CountIsMultiplicity | src/bankops/src/bankops/kpis.py:34-37 | the count of a status is its multiplicity in the status column |
| Kpis.CountIds | src/bankops/src/bankops/kpis.py:59 | the `count` of tx_id is at most the row count, and is 0 exactly when every id is null |
| Kpis.CountIdsAllPresent | src/bankops/src/bankops/kpis.py:59 | with no null id, the `count` of tx_id is the row count |
| Kpis.Amounts | src/bankops/src/bankops/kpis.py:49-51 | the skipna amounts are no more than the rows, and there are none exactly when every amount is null |
| Kpis.AmountsAllPresent | src/bankops/src/bankops/kpis.py:49-51 | with no null amount, the skipna amounts are the amount column itself |
| Kpis.Sum | src/bankops/src/bankops/kpis.py:49 | the plain sum of the present amounts, the reference that `total_amount` is stated against; its bounds and additivity are the lemmas below |
| Kpis.SumAppend | src/bankops/src/bankops/kpis.py:49 | summing a concatenation adds the sums of its parts |
| Kpis.SumBounds | src/bankops/src/bankops/kpis.py:49 | a sum of values in [lo, hi] lies in [n*lo, n*hi] |
| Kpis.Mean | src/bankops/src/bankops/kpis.py:50 | the mean is NaN exactly for no values; otherwise it times the count is the sum |
| Kpis.MeanBounded | src/bankops/src/bankops/kpis.py:50 | the mean of values in [lo, hi] lies in [lo, hi] |
| Kpis.Insert | src/bankops/src/bankops/kpis.py:51 | inserting into a sorted list keeps it sorted and adds exactly the new value |
| Kpis.Sort | src/bankops/src/bankops/kpis.py:51 | the median's ordering is sorted and a permutation of the values |
| Kpis.SortedLength | src/bankops/src/bankops/kpis.py:51 | sorting keeps the number of values |
| Kpis.SortedWithin | src/bankops/src/bankops/kpis.py:51 | sorting keeps the bounds of the values |
| Kpis.Median | src/bankops/src/bankops/kpis.py:51 | the median is NaN exactly for no values and finite otherwise; the median of one value is that value |
| Kpis.MedianBetweenMiddles | src/bankops/src/bankops/kpis.py:51 | the median lies between the two middle sorted values; it is the middle one when their number is odd and the mean of the two middle ones when it is even |
| Kpis.MedianSplits | src/bankops/src/bankops/kpis.py:51 | the lower half of the sorted values is at most the median, and the upper half at least it |
| Kpis.MedianBounded | src/bankops/src/bankops/kpis.py:51 | the median of values in [lo, hi] lies in [lo, hi] |
| Kpis.KpisOverall | src/bankops/src/bankops/kpis.py:32-53 | total_tx is the row count; each status count is that status's multiplicity; each rate is the guarded count/total; total_amount is the skipna sum; avg and median are 0.0 for an empty batch, and otherwise the skipna mean and median |
| Kpis.StatusCountsSum | src/bankops/src/bankops/kpis.py:33-37 | the four counts sum to at most the row count, with equality exactly when every status is one of the four |
| Kpis.OverallCountsWithinTotal | src/bankops/src/bankops/kpis.py:33-44 | approved+declined+refunded+chargeback <= total_tx, with equality exactly when every status is in the domain |
| Kpis.OverallRatesBounded | src/bankops/src/bankops/kpis.py:45-48 | every overall rate lies in [0, 1], and all are 0.0 on an empty batch |
| Kpis.OverallAverage | src/bankops/src/bankops/kpis.py:49-50 | with no null amount, avg_ticket is total_amount / total_tx and lies between the smallest and largest amounts |
| Kpis.OverallMedian | src/bankops/src/bankops/kpis.py:51 | with no null amount, median_ticket is finite and lies between the smallest and largest amounts |
| Kpis.DateOf | src/bankops/src/bankops/kpis.py:24 | the date is the day whose 86400 seconds contain the timestamp |
| Kpis.HourOf | src/bankops/src/bankops/kpis.py:25 | the hour lies in [0, 24) and is the hour of that day containing the timestamp |
| Kpis.CellOf | src/bankops/src/bankops/kpis.py:57 | a key cell is Null exactly when the column it reads is null (date and hour read the timestamp) |
| Kpis.KeyOf | src/bankops/src/bankops/kpis.py:57 | the key has one cell per dimension, each the row's value there (Null for a missing value) |
| Kpis.Keys | src/bankops/src/bankops/kpis.py:57 | the keys are exactly those of some row |
| Kpis.Group | src/bankops/src/bankops/kpis.py:57 | a group is no larger than the batch, and is empty exactly when its key occurs in no row |
| Kpis.GroupMembers | src/bankops/src/bankops/kpis.py:57 | a group holds exactly the rows with its key, in row order |
| Kpis.EveryRowIsGrouped | src/bankops/src/bankops/kpis.py:57 | every row, whatever nulls it holds, is in the group of its key, which is in the grouped summary |
| Kpis.GroupKpisOf | src/bankops/src/bankops/kpis.py:58-71 | total_tx counts non-null ids; total_amount is the skipna sum; each status count is its multiplicity and at most the group size; avg is the skipna mean; each rate is the unguarded count/total_tx |
| Kpis.KpisBy | src/bankops/src/bankops/kpis.py:55-72 | one entry per key that occurs, null keys included, each the aggregates of that key's group |
| Kpis.GroupIdsAllPresent | src/bankops/src/bankops/kpis.py:59 | with no null id, a group is non-empty and total_tx is its size |
| Kpis.GroupRatesBounded | src/bankops/src/bankops/kpis.py:68-71 | with no null id, each group's total_tx is its size, and each rate is finite and in [0, 1] |
| Kpis.GroupTotalIsIdsWithKey | src/bankops/src/bankops/kpis.py:58-59 | a group's total_tx is the number of non-null ids among the rows with its key |
| Kpis.IdsWithKeyIn | src/bankops/src/bankops/kpis.py:57-59 | the non-null ids of the rows whose key is in a set are at most all the non-null ids |
| Kpis.IdsWithAllKeys | src/bankops/src/bankops/kpis.py:57-59 | when every row's key is in the set, they are all the non-null ids |
| Kpis.IdsWithAllKeysEmpty | src/bankops/src/bankops/kpis.py:57-59 | no key set, no ids |
| Kpis.IdsWithKeySplit | src/bankops/src/bankops/kpis.py:57-59 | counting ids over a set of keys splits into one key plus the rest |
| Kpis.IdsWithKeyOfGroup | src/bankops/src/bankops/kpis.py:57-59 | counting ids in a group is counting the ids of rows with its key |
| Kpis.SumTotalsOfGroups | src/bankops/src/bankops/kpis.py:57-59 | the totals of the groups with keys in a set add up to the ids of the rows with those keys |
| Kpis.GroupTotalsAddUp | src/bankops/src/bankops/kpis.py:57-59 | group totals add up to the non-null ids, and so to the overall total_tx when every id is present |
| Kpis.ExportReports | src/bankops/src/bankops/kpis.py:74-80 | one grouped summary per report dimension tuple (date; channel; country; merchant; date and hour) |
| Kpis.ReportTotalsAgree | src/bankops/src/bankops/kpis.py:75-80 | in every exported grouping, with every id present, the group totals add up to the overall total |
| Kpis.SplitGroups | src/bankops/src/bankops/kpis.py:57 | rows keyed k1 up to a position and k2 after it form exactly those two groups |
| Kpis.MiniBatchCounts | src/bankops/src/bankops/tests/test_kpis.py:6-23 | the five-row batch has 2 APPROVED, 1 DECLINED, 1 REFUNDED and 1 CHARGEBACK |
| Kpis.MiniBatchOverall | src/bankops/src/bankops/tests/test_kpis.py:16-26 | on the five-row batch: total 5, approved 2, declined 1, refunded 1, chargeback 1, approval_rate 0.4, decline_rate 0.2 |
| Kpis.MiniBatchDates | src/bankops/src/bankops/tests/test_kpis.py:6-14 | the first three transactions fall on 2025-01-01 and the last two on 2025-01-02 |
| Kpis.MiniBatchByDate | src/bankops/src/bankops/tests/test_kpis.py:28-35 | grouped by date, the batch has two groups, with totals 3 and 2, summing to 5 |
| Kpis.NullIdGroupCounts | src/bankops/src/bankops/kpis.py:59-61 | the group of two APPROVED rows, one with a null id, has total_tx 1 and approved_tx 2 |
| Kpis.NullIdInflatesGroupRate | src/bankops/src/bankops/kpis.py:59-68 | a group of two APPROVED rows, one with a null id, has total_tx 1 and approval_rate 2.0 |

## Left out

- File and database I/O is not modelled. This covers:
  - the directory set-up and `load_raw`, `_load_df` and `load_clean_df`;
  - `save_clean` and `to_sqlite`;
  - the CSV writes of `_fail_export` and `export_reports`;
  - the JSON dump of the quality report.

  `_fail_export` is modelled as returning the failing rows or None, in
  place of a file path.
- `src/bankops/db.py` and `sql/sql/tools/sql_run.py` are not part of this
  model: they are thin database wrappers and a script runner.
- The synthetic data generators (`_generate_synthetic_csv` and
  `generate_synthetic.py`) draw random numbers and read the clock. They are
  not modelled.
- Argument parsing, `main` entry points and printing are not modelled.
- Library parsing is not modelled. `to_datetime` is replaced by a timestamp
  that is already `Option<int>` (None when unparseable). `to_numeric` is
  replaced by the raw amount datatype `Missing | Unparseable | Num(v)`.
- `_coerce_ts` calendar arithmetic is not modelled. The date is the day
  number `ts / 86400` and the hour is `(ts % 86400) / 3600`, in naive time.
  There is no time zone and no calendar display.
- Kpis.Rate: amounts and rates are exact reals, not IEEE doubles, so
  rounding is not modelled. NaN and +inf appear only where the grouped
  rates, the mean of no values and the median of no values produce them.
  `KpisOverall` reaches the NaN mean and median on a non-empty batch whose
  every amount is null.
- QualityChecks.TimestampWindowVerdict: timestamps are whole seconds, so a
  sub-second instant such as 2030-12-31 00:00:00.5, which fails
  timestamp_window in the code (quality_checks.py line 98), cannot be
  represented.
- Kpis.KpisBy: the grouped summary is a map, so pandas' sorted row order
  of the grouped output is not modelled.
- Etl.NormalizeChannel / Etl.NormalizeStatus: when every channel (or
  status) cell of a raw batch is blank, pandas stores the column as floats
  and `.str.upper()` (etl.py lines 54-55) raises AttributeError. The model
  returns WEB (or DECLINED) instead. That raise depends on the column's
  storage type, and it breaks the cleaning's rule that malformed values are
  defaulted rather than rejected.
- Etl.NormalizeChannel: upper-casing covers ASCII letters only. It is
  observable only on values already in the list, which are upper case, so
  it never changes the result.
- A missing column is not modelled as a raised KeyError:
  - in `clean`, the raw record always has all seven columns;
  - in the KPI functions, rows always have every column;
  - in the checker, the four indexed columns, each under exactly one label,
    are a precondition; a frame with one of those labels repeated is not
    modelled.
- Kpis.ExportReports: its own contract states only the number of
  groupings. Their content is stated by KpisBy and ReportTotalsAgree.
- Empty dimension lists raise in pandas' `groupby`, so KpisBy requires at
  least one dimension.
