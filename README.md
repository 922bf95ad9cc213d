# TransactionFraudGuard — a verified model of its rule engines

TransactionFraudGuard is a set of Streamlit pages over SQLite tables of bank
transactions. Underneath the pages are small, deterministic rule engines,
and this project models them in Dafny and proves what each one promises:

- **limit monitoring**: group an individual's transactions per day, ISO week and
  month; flag a group over its limit, or at 80% of it spread over several
  accounts; label it a Direct Violation or a Potential Circumvention; store
  the violations;
- **fraud detection**: enrich each row with per-individual totals, counts,
  the number of accounts, exceed flags and per-account averages; build the
  17-feature vector; flag a probability of at least 0.3; summarise per
  individual; page through stored results;
- **multiple-account detection**: validate and deduplicate an upload, find the
  holders of several banks (page copy) or several accounts (top-level copy),
  save accounts and transactions insert-if-absent or with a skip, update or
  cancel policy, compute the statistics and pages;
- **alerts**: derive severity tiers from a probability; seed four kinds of
  alert (large transaction, spending pattern, low balance, account status)
  with their threshold filters and LIMIT caps; run the dedup-aware
  generator, whose second run adds nothing; page through alerts and change
  an alert's status with its action-log row;
- **credentials**: check passwords and usernames in a fixed order; create
  users; log in only active users with the right password hash; change a
  password only when the current one matches; update one's profile;
- **dashboard figures**: the percent change with its divide-by-zero rule, the
  trend arrow with its `inverted` flag, and the fraud rate.

SQLite tables are sequences of rows, owned by classes whose methods change
them as the source's statements do. Insert-if-absent is
`Tables.InsertAllIfAbsent`, a filter is `Tables.Where`, and a group-by uses
`Grouping.Keys`, `Grouping.Members` and `Grouping.Sum`. Amounts are exact
`real`s. A timestamp is a `Records.Stamp` whose date, hour, weekday and ISO
year and week are already extracted. The fraud model with its scaler and
label encoder, SHA-256, the clock and the outcome of each database call are
parameters. Each of the two copies of the limit, fraud and multiple-account
pages has its own module. What the copies share lives in `LimitMonitoring`,
`FraudFeatures` and `Alerts`.

Where a Finding below shows the code going wrong, the corresponding engine uses the
corrected behaviour. These are the weekly key, the end date of the listing and the
username check. "## Left out" names each member whose contract therefore differs
from the code as written.

## Model

| member | source | states |
|---|---|---|
| LimitMonitoring.Violations | pages/2_limit_monitoring.py:314-327 | a period total is reported iff it is a group of that period and is over the limit, or at least 80% of it with more than one account |
| LimitMonitoring.AnalyzeReportsFlagged | pages/2_limit_monitoring.py:314-327 | the daily, weekly and monthly reports hold exactly the flagged groups of their period, against that period's limit |
| LimitMonitoring.FlaggedOnly | pages/2_limit_monitoring.py:314-327 | the filter keeps exactly the flagged rows and never adds one |
| LimitMonitoring.TotalsPartitionBatch | pages/2_limit_monitoring.py:287-306 | the group totals add up to the batch's total amount and the group counts to its number of rows |
| LimitMonitoring.TotalsOfSums | pages/2_limit_monitoring.py:287-306 | summing the per-group amounts and counts gives the per-key sums of amounts and of rows |
| LimitMonitoring.TotalsKeyed | pages/2_limit_monitoring.py:287-306 | no two groups share an (individual, period) key, and every row's key has a group |
| LimitMonitoring.JoinedDistinctCount | pages/2_limit_monitoring.py:309-311 | comma count + 1 of the ", "-joined sorted distinct values is the number of distinct values, when no value holds a comma |
| LimitMonitoring.DistinctCountsWithoutCommas | pages/2_limit_monitoring.py:289-311 | a group's num_banks and num_accounts are its numbers of distinct banks and accounts, when no name holds a comma |
| LimitMonitoring.SummaryCounts | pages/2_limit_monitoring.py:289-311 | the same distinct counts for the summary of any non-empty group |
| LimitMonitoring.MembersWithoutCommas | pages/2_limit_monitoring.py:289-311 | a key's group is non-empty and inherits the rows' comma-free names |
| LimitMonitoring.CommaInAccountIdCountsTwice | pages/2_limit_monitoring.py:309-311 | one row with account id "A,B" is counted as two accounts and is reported at 900 against a limit of 1000 |
| LimitMonitoring.ViolationTable.InsertAll | pages/2_limit_monitoring.py:196-245 | the loop appends one record per violation, in order, and counts them |
| LimitMonitoring.ViolationTable.SaveViolations | pages/2_limit_monitoring.py:179-256 | no connection gives None; a failing statement rolls back and gives 0; otherwise the daily, weekly and monthly records are appended in that order and their number is returned |
| LimitMonitoring.ReportedRowsClassified | pages/2_limit_monitoring.py:197-232 | a flagged row is a Direct Violation iff its amount is over the limit, and a Potential Circumvention iff it is within 80%–100% of the limit over several accounts |
| LimitMonitoring.PeriodLabelInjective | pages/2_limit_monitoring.py:206-233 | different period keys have different stored labels |
| LimitMonitoring.LabelStartsWithDigit | pages/2_limit_monitoring.py:206-233 | day and month labels start with a digit, so they never look like a week label |
| LimitMonitoring.DayLabelInjective | pages/2_limit_monitoring.py:206 | `str(date)` labels tell dates apart |
| LimitMonitoring.WeekLabelInjective | pages/2_limit_monitoring.py:215 | "Week {week}, {year}" labels tell (year, week) pairs apart |
| LimitMonitoring.MonthLabelInjective | pages/2_limit_monitoring.py:233 | "{month}/{year}" labels tell (year, month) pairs apart |
| LimitMonitoring.DayMonthLabelsDiffer | pages/2_limit_monitoring.py:206-233 | a day label is never a month label |
| LimitMonitoring.Preprocess | pages/2_limit_monitoring.py:335-347 | the upload is converted iff it has amount and timestamp columns and every cell converts, row by row |
| LimitMonitoring.LastSetting | pages/2_limit_monitoring.py:164-170 | a limit keeps its default when no settings row has its name, and otherwise takes the last such row's value |
| LimitMonitoring.GetSettingsFromDb | pages/2_limit_monitoring.py:149-177 | a failed read gives the defaults 1000/5000/10000; otherwise only daily_limit, weekly_limit and monthly_limit rows override them (the top-level 2_limit_monitoring.py, lines 112-133, reads them the same way) |
| LimitMonitoring.WeekKeyAsWrittenMergesYears | pages/2_limit_monitoring.py:280-298 | 2024-01-01 and 2024-12-30 fall in different ISO weeks yet get the same (calendar year, ISO week) key |
| LimitMonitoring.WeeklyGroupsAreCalendarWeeks | pages/2_limit_monitoring.py:293-298 | with the ISO-year key, two of an individual's rows share a weekly group iff they fall in the same ISO week |
| LimitPage.AnalyzeLimits | pages/2_limit_monitoring.py:276-333 | with the aggregated columns present the report is the engine's; without them all three reports are empty |
| LimitPage.ProcessUpload | pages/2_limit_monitoring.py:482-502 | a conversion failure and a missing upload column are reported, and otherwise the converted rows are analysed |
| LimitPage.AnalyzeLimitsFlagged | pages/2_limit_monitoring.py:488-502 | an upload with the required columns reports exactly the flagged groups; one without them reports nothing |
| LimitPage.OverLimitPercent | pages/2_limit_monitoring.py:539-541 | the shown percentage times the limit is 100 times (amount − limit), and is undefined for a zero limit |
| LimitPage.OverLimitPercentOfFlagged | pages/2_limit_monitoring.py:536-541 | a flagged row's percentage is positive iff it is a Direct Violation and never below −20 |
| LimitRoot.AnalyzeLimits | 2_limit_monitoring.py:220-270 | a missing aggregated column is an error naming it; otherwise the result is the shared engine's report |
| LimitRoot.DirectRows | 2_limit_monitoring.py:371 | the direct view holds exactly the rows over their limit |
| LimitRoot.CircumventionRows | 2_limit_monitoring.py:372-376 | the circumvention view holds exactly the rows within 80%–100% of the limit over several accounts |
| LimitRoot.DisplaySplitsReport | 2_limit_monitoring.py:371-376 | of flagged rows, each is in exactly one of the two views, and the views' sizes add up to the report's |
| LimitRoot.DisplayAgreesWithType | 2_limit_monitoring.py:371-376 | a reported row is in the direct view iff its stored type is Direct Violation, and in the circumvention view iff it is Potential Circumvention |
| LimitRoot.SaveViolations | 2_limit_monitoring.py:141-202 | a working database appends the report's records, daily then weekly then monthly; a failure leaves the table as it was |
| FraudFeatures.PreprocessData | pages/3_fraud_detection.py:243-277 | missing required columns raise, naming exactly the missing ones; otherwise every row is enriched (the top-level 3_fraud_detection.py, lines 217-252, checks the same columns) |
| FraudFeatures.FeaturesOf | pages/3_fraud_detection.py:259-277 | the exceed flags are 1 exactly when the daily, weekly or monthly total is strictly over 1000, 5000 or 10000 |
| FraudFeatures.Enrich | pages/3_fraud_detection.py:259-277 | one enriched row per input row, each computed against the whole batch |
| FraudFeatures.RowCountsItself | pages/3_fraud_detection.py:259-267 | every count and n_accounts is at least 1, because a row is in its own groups |
| FraudFeatures.AveragesDivideByAccounts | pages/3_fraud_detection.py:275-277 | each per-account average is its total divided by n_accounts, which is never zero |
| FraudFeatures.DailyWithinLongerPeriods | pages/3_fraud_detection.py:259-264 | for non-negative amounts the daily total and count never exceed the monthly ones, nor the weekly ones when a date fixes its week |
| FraudFeatures.WeekNumberSpansYears | pages/3_fraud_detection.py:255-264 | two 3000 payments a year apart in ISO week 1 make one weekly total of 6000 and set the weekly flag |
| FraudFeatures.FeatureVector | pages/3_fraud_detection.py:293-310 | the vector has one entry per feature name |
| FraudFeatures.FeatureVectorOrder | pages/3_fraud_detection.py:293-300 | the vector is exactly the 17 features in the listed order |
| FraudFeatures.FirstMissingFeature | pages/3_fraud_detection.py:303-310 | None iff every feature column is present; otherwise the first missing name in feature order |
| FraudFeatures.EnrichedHasFeatures | pages/3_fraud_detection.py:293-300 | an enriched frame holds every feature column |
| FraudFeatures.Suspicious | pages/3_fraud_detection.py:332 | the flag is 1 iff the probability is at least 0.3, and 0 otherwise |
| FraudFeatures.BankCodes | pages/3_fraud_detection.py:313-319 | every row gets its bank's code when the encoder knows all banks, and every row gets 0 otherwise |
| FraudFeatures.ScoreAll | pages/3_fraud_detection.py:328-331 | scoring succeeds iff every row scores, and then gives one probability per row |
| FraudFeatures.BuildWhereClauses | pages/3_fraud_detection.py:146-162 | the appended clauses, at most three, hold of a row iff it passes every filter given |
| FraudFeatures.AllSatisfiedConcat | pages/3_fraud_detection.py:161-165 | AND-joining two clause lists is the conjunction of both |
| FraudFeatures.AllSatisfiedOne | pages/3_fraud_detection.py:161-165 | a one-clause WHERE is that clause |
| FraudFeatures.Matching | pages/3_fraud_detection.py:146-162 | exactly the stored rows that pass the filters |
| FraudFeatures.PaginatedResults | pages/3_fraud_detection.py:141-180 | a failing read gives no rows and 0 pages; otherwise ⌈matches / 50⌉ pages, and the page is the 50 rows at offset 50·page of the matches sorted newest first (the top-level 3_fraud_detection.py, lines 119-156, pages the same way) |
| FraudFeatures.PaginatedResultsCorrect | pages/3_fraud_detection.py:167-174 | a page has at most 50 rows, all stored and matching, newest first |
| FraudFeatures.MatchingRowOnItsPage | pages/3_fraud_detection.py:167-174 | the i-th match sits at position i mod 50 of page i div 50, which is within the page count |
| FraudPage.Predict | pages/3_fraud_detection.py:285-348 | the loop over feature names computes the prediction function |
| FraudPage.PredictFallsBack | pages/3_fraud_detection.py:287-310 | without a model, or with a feature column missing, the frame comes back unchanged |
| FraudPage.PredictFlagsAtThreshold | pages/3_fraud_detection.py:331-348 | with every feature present each row keeps its columns; probability and flag are both None or both set, and the flag is 1 iff the probability is at least 0.3 |
| FraudPage.UnknownBankZeroesCodes | pages/3_fraud_detection.py:313-319 | one unknown bank makes every row scored with bank code 0 |
| FraudPage.PreprocessedFramesArePredicted | pages/3_fraud_detection.py:293-310 | an enriched frame always reaches the model |
| FraudPage.SummaryPartitionsRows | pages/3_fraud_detection.py:370-398 | the per-individual counts add up to the number of rows and the amounts to the total |
| FraudPage.SummariesSums | pages/3_fraud_detection.py:372-398 | the summary rows' counts and amounts are the per-individual sums |
| FraudPage.SummaryOnePerIndividual | pages/3_fraud_detection.py:370-398 | one row per individual, every individual covered, each with at least one transaction |
| FraudPage.ReportFollowsKeys | pages/3_fraud_detection.py:370-398 | the rows follow the individuals in key order and count each one's transactions |
| FraudPage.SummaryBounds | pages/3_fraud_detection.py:370-398 | the suspicious percent is within 0–100 and the average risk within 0–1, and suspicious rows never outnumber rows |
| FraudRoot.RoundHalfEven | 3_fraud_detection.py:307 | the nearest integer to its argument, and on a tie the even one |
| FraudRoot.Predict | 3_fraud_detection.py:259-316 | the loop computes the top-level prediction function |
| FraudRoot.PredictRaisesOnFailure | 3_fraud_detection.py:314-316 | a missing feature, an unknown bank or a failing score raises instead of returning partial output |
| FraudRoot.PredictResultsCopyRows | 3_fraud_detection.py:294-310 | one result per row, with the identifiers copied through, the rounded probability and the 0.3 flag |
| FraudRoot.AnalysisStats | 3_fraud_detection.py:560-570 | no statistics for no results; otherwise the row count and the number of flagged rows |
| FraudRoot.AnalysisStatsBounds | 3_fraud_detection.py:560-570 | suspicious_percent lies within 0–100 and is suspicious / total · 100, and the average probability lies within 0–1 |
| FraudRoot.RoundedColourDisagreesWithFlag | 3_fraud_detection.py:547-552 | a probability of 0.29996 is shown red as written, yet its row is not flagged |
| FraudRoot.ColourMatchesThreshold | 3_fraud_detection.py:548 | colouring the unrounded probability makes it red iff it is at least 0.3 |
| MultipleAccountsPage.ValidateDataframe | pages/1_multiple_accounts.py:269-300 | the frame passes iff every required column is present, it is not empty and every timestamp and amount converts; each failure names its reason |
| MultipleAccountsPage.TransactionStore.InsertAccounts | pages/1_multiple_accounts.py:312-323 | an account row is added only when its id is not stored; stored accounts and transactions are untouched |
| MultipleAccountsPage.TransactionStore.InsertTransactions | pages/1_multiple_accounts.py:326-348 | a transaction is added only when its id is absent; accounts are untouched |
| MultipleAccountsPage.TransactionStore.SaveToDatabase | pages/1_multiple_accounts.py:302-360 | a working database inserts both frames if absent and keeps every id unique; a failure rolls back both tables and returns False |
| MultipleAccountsPage.SaveTwiceAddsNothing | pages/1_multiple_accounts.py:312-348 | saving the same frame again adds no account and no transaction |
| MultipleAccountsPage.SaveStoresEveryId | pages/1_multiple_accounts.py:326-348 | the old rows stay first, and an id is stored afterwards iff it was stored before or is in the frame |
| MultipleAccountsPage.BankCountIsDistinct | pages/1_multiple_accounts.py:427-448 | bank_count is the number of distinct banks among the individual's rows |
| MultipleAccountsPage.FirstInstant | pages/1_multiple_accounts.py:421-448 | first_transaction is the earliest of the individual's timestamps |
| MultipleAccountsPage.LastInstant | pages/1_multiple_accounts.py:421-448 | last_transaction is the latest of them |
| MultipleAccountsPage.WithBanks | pages/1_multiple_accounts.py:421-448 | HAVING keeps exactly the individuals with at least n banks, without repeating one |
| MultipleAccountsPage.MultiBankIdsExactly | pages/1_multiple_accounts.py:421-448 | an individual is a candidate iff it has transactions at more than one bank |
| MultipleAccountsPage.HoldersAreMultiBank | pages/1_multiple_accounts.py:421-448 | every listed row is its individual's aggregate, with more than one bank |
| MultipleAccountsPage.HoldersCoverMultiBank | pages/1_multiple_accounts.py:421-448 | an individual is listed iff it has more than one bank |
| MultipleAccountsPage.HoldersUnique | pages/1_multiple_accounts.py:421-448 | no individual is listed twice |
| MultipleAccountsPage.HoldersOrdered | pages/1_multiple_accounts.py:447 | rows are ordered by bank_count descending, then total amount descending |
| MultipleAccountsPage.HolderOrderTotal | pages/1_multiple_accounts.py:447 | that ordering is a total preorder |
| MultipleAccountsPage.StatsCountHolders | pages/1_multiple_accounts.py:226-259 | multiple_accounts_count is the number of listed holders, at most the number of distinct individuals |
| MultipleAccountsPage.Selected | pages/1_multiple_accounts.py:362-416 | exactly the rows passing the date, bank and minimum-bank filters |
| MultipleAccountsPage.ListingCorrect | pages/1_multiple_accounts.py:362-416 | the listing holds as many rows as pass, all stored and passing, newest first |
| MultipleAccountsPage.PaginatedDataRows | pages/1_multiple_accounts.py:362-416 | a page has at most page_size rows, each stored and passing the filters |
| MultipleAccountsPage.PaginatedDataNewestFirst | pages/1_multiple_accounts.py:397-409 | a page is ordered newest first |
| MultipleAccountsPage.MinBanksFilter | pages/1_multiple_accounts.py:380-391 | with min_accounts above 1 every row shown belongs to an individual with at least that many banks |
| MultipleAccountsPage.PaginatedDataCounts | pages/1_multiple_accounts.py:362-416 | the count is the number of passing rows and the page count its ceiling over page_size |
| MultipleAccountsPage.AsWrittenRangeDropsEndDate | pages/1_multiple_accounts.py:373 | as written, a transaction on the end date never passes the date filter |
| MultipleAccountsPage.EndDateIsListed | pages/1_multiple_accounts.py:373 | comparing dates, a transaction on the end date passes |
| MultipleAccountsRoot.Preprocess | 1_multiple_accounts.py:427-440 | preprocessing fails iff the timestamp or transaction_id column is missing or a timestamp does not parse |
| MultipleAccountsRoot.PreprocessUniqueIds | 1_multiple_accounts.py:437-440 | the result's transaction ids are unique and its rows come from the input |
| MultipleAccountsRoot.PreprocessKeepsIds | 1_multiple_accounts.py:437-440 | every input id survives, and the rows are in timestamp order |
| MultipleAccountsRoot.PreprocessKeepsEarliest | 1_multiple_accounts.py:437-440 | the row kept for an id is no later than any input row with that id |
| MultipleAccountsRoot.TimeBeforeTotal | 1_multiple_accounts.py:437 | timestamp order is a total preorder |
| MultipleAccountsRoot.ValidateDataframe | 1_multiple_accounts.py:247-274 | the frame passes iff it is non-empty, has every required column and no null amount or timestamp; the errors say which and pass-through converts ids to strings |
| MultipleAccountsRoot.EmptyIndividualBecomesNan | 1_multiple_accounts.py:262-270 | an empty individual_id passes as the string "nan" |
| MultipleAccountsRoot.CheckedValidationRejectsEmptyCells | 1_multiple_accounts.py:262-270 | checking nulls before converting accepts exactly the frames whose every cell is filled, and copies the ids through |
| MultipleAccountsRoot.WithAccounts | 1_multiple_accounts.py:300-301 | keeps exactly the individuals with more than one distinct account, without repeating one |
| MultipleAccountsRoot.MultiAccountIdsExactly | 1_multiple_accounts.py:296-301 | an individual is a candidate iff it has transactions on more than one account |
| MultipleAccountsRoot.AnyNamedExactly | 1_multiple_accounts.py:303-304 | some candidate has a non-empty id iff a named multi-account holder exists |
| MultipleAccountsRoot.MultipleAccountsListed | 1_multiple_accounts.py:296-319 | an individual is listed iff it has more than one account and some named holder exists |
| MultipleAccountsRoot.EmptyFrameNoSummaries | 1_multiple_accounts.py:297-298 | an empty frame lists nobody |
| MultipleAccountsRoot.MultipleAccountsRows | 1_multiple_accounts.py:306-319 | every listed row is its individual's summary, with more than one account |
| MultipleAccountsRoot.MultipleAccountsUnique | 1_multiple_accounts.py:306-319 | no individual is listed twice |
| MultipleAccountsRoot.MultipleAccountsOrdered | 1_multiple_accounts.py:319 | rows are sorted by num_accounts descending |
| MultipleAccountsRoot.SummaryCounts | 1_multiple_accounts.py:306-317 | num_accounts is the number of distinct accounts, and the row count and total are the individual's |
| MultipleAccountsRoot.SummaryListsSorted | 1_multiple_accounts.py:306-317 | the accounts and banks lists are sorted and distinct |
| MultipleAccountsRoot.SummaryCoversRows | 1_multiple_accounts.py:306-317 | each of the individual's rows has its account and bank listed and its time between first and last |
| MultipleAccountsRoot.SummaryAccountsAreOwn | 1_multiple_accounts.py:306-317 | every listed account is one of the individual's own |
| MultipleAccountsRoot.AccountCounts | 1_multiple_accounts.py:86-170 | one (individual, distinct account count) pair per individual |
| MultipleAccountsRoot.StatsPercent | 1_multiple_accounts.py:136-142 | the holder percentage lies within 0–100; it is 0 iff there are no holders and 100 iff everyone holds several accounts |
| MultipleAccountsRoot.StatsOfEmptyTable | 1_multiple_accounts.py:86-170 | an empty table gives all-zero statistics |
| MultipleAccountsRoot.HoldersAmongIndividuals | 1_multiple_accounts.py:136-139 | holders never outnumber individuals |
| MultipleAccountsRoot.StatsHoldersMatchAnalysis | 1_multiple_accounts.py:136-139 | the statistics' holder count is the analysis' number of candidates |
| MultipleAccountsRoot.StatsAverageBounds | 1_multiple_accounts.py:86-170 | the average number of accounts per individual lies between 1 and the number of rows |
| MultipleAccountsRoot.TopIndividuals | 1_multiple_accounts.py:86-170 | the top list has min(5, individuals) entries, none with fewer accounts than an individual left out |
| MultipleAccountsRoot.TopIndividualsCounts | 1_multiple_accounts.py:86-170 | every top entry is an individual with its own account count |
| MultipleAccountsRoot.TopOfCounts | 1_multiple_accounts.py:86-170 | taking the top five keeps entries of the list and none below one left out |
| MultipleAccountsRoot.NewestCorrect | 1_multiple_accounts.py:277-291 | the listing is a permutation of the table, newest first |
| MultipleAccountsRoot.PaginatedDataRows | 1_multiple_accounts.py:277-291 | a page has at most page_size stored rows; the count is the table's size and the page count its ceiling |
| MultipleAccountsRoot.PaginatedDataNewestFirst | 1_multiple_accounts.py:277-291 | a page is ordered newest first |
| MultipleAccountsRoot.EveryRowOnItsPage | 1_multiple_accounts.py:277-291 | the i-th newest row sits at position i mod size of page i div size, within the page count |
| MultipleAccountsRoot.FirstFailing | 1_multiple_accounts.py:228-233 | the first row of the batch whose insert fails, or None when none does |
| MultipleAccountsRoot.SavedShape | 1_multiple_accounts.py:173-245 | a save succeeds only on a working database with a non-empty batch, appending it after the kept rows and counting it |
| MultipleAccountsRoot.RootStore.SaveToDatabase | 1_multiple_accounts.py:173-245 | the new tables and outcome are the save policy's effect on the old tables, and True means saved |
| MultipleAccountsRoot.SaveKeepsValid | 1_multiple_accounts.py:173-245 | a save keeps ids unique and every transaction's account stored |
| MultipleAccountsRoot.KeptValid | 1_multiple_accounts.py:201-209 | deleting rows keeps the tables valid |
| MultipleAccountsRoot.WriteBatchValid | 1_multiple_accounts.py:219-233 | writing accounts then transactions keeps the tables valid |
| MultipleAccountsRoot.AccountsValid | 1_multiple_accounts.py:219-222 | appending accounts that fit keeps account ids unique |
| MultipleAccountsRoot.AppendValid | 1_multiple_accounts.py:228-233 | appending a batch with no failing row keeps the tables valid |
| MultipleAccountsRoot.FailuresKeepTransactions | 1_multiple_accounts.py:173-245 | a save that does not succeed leaves the transactions as they were, unless the update policy already deleted rows |
| MultipleAccountsRoot.CancelChangesNothing | 1_multiple_accounts.py:192-193 | the cancel policy with stored ids changes nothing and reports cancelled |
| MultipleAccountsRoot.SavedStoresEveryId | 1_multiple_accounts.py:173-245 | after a successful save every uploaded id is stored |
| MultipleAccountsRoot.KeptAndBatchHoldId | 1_multiple_accounts.py:195-209 | under every policy each uploaded id is in the kept rows or the batch |
| MultipleAccountsRoot.SavedKeepsOtherRows | 1_multiple_accounts.py:173-245 | a successful save keeps every stored row whose id is not uploaded |
| MultipleAccountsRoot.SavedCount | 1_multiple_accounts.py:195-242 | the count is positive, at most the upload, all of it unless existing ids were skipped, and the table grows by it except under update |
| MultipleAccountsRoot.UpdateReplaces | 1_multiple_accounts.py:201-209 | after a successful update every row with an uploaded id is the uploaded row |
| MultipleAccountsRoot.ReplacedRow | 1_multiple_accounts.py:201-233 | the same for the kept rows followed by the upload |
| MultipleAccountsRoot.FailedUpdateLosesRows | 1_multiple_accounts.py:201-209 | an update whose insert fails has already deleted the stored rows with uploaded ids |
| MultipleAccountsRoot.KnownAccountBlocksNewOnes | 1_multiple_accounts.py:219-233 | an upload mixing a stored account with a new one stores no account and does not save |
| MultipleAccountsRoot.SaveTwiceNothingNew | 1_multiple_accounts.py:195-199 | after a successful save, saving the same upload with skip finds nothing new |
| MultipleAccountsRoot.NoneFresh | 1_multiple_accounts.py:195-199 | when every uploaded id is stored, skip leaves an empty batch |
| Alerts.SeverityOf | initialize_real_alerts.py:218-226 | CRITICAL from 0.9, HIGH from 0.7, MEDIUM from 0.5, LOW below, each as an exact range |
| Alerts.SeverityMonotone | initialize_real_alerts.py:218-226 | a higher probability never gets a lower severity |
| Alerts.SettingValue | initialize_real_alerts.py:121-122 | a setting's first row's threshold, or None when no row has the name |
| Alerts.DefaultThresholds | initialize_real_alerts.py:94-107 | the default settings give 10000, 1000, 0.8 and 1.0 |
| Alerts.BalanceRow | initialize_real_alerts.py:266-277 | each balance row is a stored account with the sum of its amounts, listed once |
| Alerts.BalanceOfAccount | initialize_real_alerts.py:266-277 | every account with a transaction has a balance row |
| Alerts.CountRow | initialize_real_alerts.py:329-342 | each count row is a present key with its number of rows, at least 1, listed once |
| Alerts.CountOfKey | initialize_real_alerts.py:329-342 | every present key has a count row |
| Alerts.LargeAlertsCopy | initialize_real_alerts.py:150-168 | one NEW alert per found transaction, carrying its time, account, id, amount and the threshold |
| Alerts.PatternAlertsCopy | initialize_real_alerts.py:214-241 | one NEW SPENDING_PATTERN alert per found result, with the severity of its probability |
| Alerts.BalanceAlertsCopy | initialize_real_alerts.py:290-307 | one NEW LOW_BALANCE alert per found account, with its balance and the threshold |
| Alerts.LargeAlertIds | backup_unused_files/enhanced_financial_alerts.py:180-198 | the alerts' transaction ids are the found ones, and unique when those are |
| AlertSeeding.AlertsDatabase.constructor | initialize_real_alerts.py:18-110 | the fresh database holds the default settings and no alerts |
| AlertSeeding.AlertsDatabase.GenerateLargeTransactionAlerts | initialize_real_alerts.py:112-174 | appends one alert per transaction strictly over the stored threshold, at most 100, and returns their number |
| AlertSeeding.AlertsDatabase.GenerateFraudAlerts | initialize_real_alerts.py:176-247 | appends one pattern alert per flagged result, at most 100, and returns their number |
| AlertSeeding.AlertsDatabase.GenerateBalanceAlerts | initialize_real_alerts.py:249-313 | appends one alert per account whose sum is strictly under the threshold, at most 100 |
| AlertSeeding.AlertsDatabase.InsertBalanceAlerts | initialize_real_alerts.py:290-307 | the insert loop appends one alert per row and counts them |
| AlertSeeding.AlertsDatabase.GenerateStatusAlerts | initialize_real_alerts.py:315-382 | appends one ACTIVE→RESTRICTED alert per account with more than one flagged result, at most 25 |
| AlertSeeding.AlertsDatabase.InsertStatusAlerts | initialize_real_alerts.py:359-376 | the insert loop appends one status alert per row and counts them |
| AlertSeeding.SeedAlerts | initialize_real_alerts.py:384-397 | a fresh database receives the four kinds of alert, and the total is the sum of the four counts |
| AlertSeeding.LargeTransactionsFacts | initialize_real_alerts.py:129-140 | at most 100 stored transactions, all strictly over the threshold, and all of them when fewer than 100 |
| AlertSeeding.SuspiciousResultsFacts | initialize_real_alerts.py:190-200 | at most 100 stored results, all flagged, all of them when fewer than 100, none without a table |
| AlertSeeding.FilteredGroupsUnique | initialize_real_alerts.py:266-277 | HAVING on grouped rows keeps each account once |
| AlertSeeding.LowBalanceRow | initialize_real_alerts.py:266-277 | each found account is stored, with its sum strictly under the threshold, found once |
| AlertSeeding.LowBalancesComplete | initialize_real_alerts.py:266-277 | below the cap every account under the threshold is found |
| AlertSeeding.RepeatOffenderRow | initialize_real_alerts.py:329-342 | at most 25 accounts, each with its number of flagged results, at least 2, found once |
| AlertSeeding.EmptySourcesAlertNothing | initialize_real_alerts.py:145-147 | empty or missing sources yield no alert of any kind |
| AlertGeneration.InitSettingsFacts | backup_unused_files/enhanced_financial_alerts.py:21-111 | initialisation keeps existing settings in front and makes all four setting types present |
| AlertGeneration.InitSettingsIdempotent | backup_unused_files/enhanced_financial_alerts.py:102-107 | initialising twice is initialising once |
| AlertGeneration.ThresholdOr | backup_unused_files/enhanced_financial_alerts.py:121-129 | a stored setting's threshold, or the default when the table or the row is missing |
| AlertGeneration.Tracked | backup_unused_files/enhanced_financial_alerts.py:255-288 | one tracked alert per found result |
| AlertGeneration.StatusAlerts | backup_unused_files/enhanced_financial_alerts.py:449-477 | one status alert per due account |
| AlertGeneration.LargeAlertRows | backup_unused_files/enhanced_financial_alerts.py:180-191 | the loop builds one alert per found transaction |
| AlertGeneration.PatternAlertRows | backup_unused_files/enhanced_financial_alerts.py:255-281 | the loop builds one tracked alert per found result |
| AlertGeneration.BalanceAlertRows | backup_unused_files/enhanced_financial_alerts.py:357-368 | the loop builds one alert per found account |
| AlertGeneration.StatusAlertRows | backup_unused_files/enhanced_financial_alerts.py:449-468 | the loop skips accounts alerted within seven days and builds one alert per other account |
| AlertGeneration.AlertStore.InitAlertsDatabase | backup_unused_files/enhanced_financial_alerts.py:21-111 | settings gain the missing defaults; alerts are untouched |
| AlertGeneration.AlertStore.GenerateLargeTransactionAlerts | backup_unused_files/enhanced_financial_alerts.py:113-203 | appends one alert per new large transaction and returns their number, keeping alert ids unique |
| AlertGeneration.AlertStore.GeneratePatternDeviationAlerts | backup_unused_files/enhanced_financial_alerts.py:205-293 | appends one alert per new flagged result and returns their number, keeping ids unique |
| AlertGeneration.AlertStore.GenerateDailyBalanceAlerts | backup_unused_files/enhanced_financial_alerts.py:295-380 | appends one alert per low-balance account not alerted in the last day |
| AlertGeneration.AlertStore.GenerateAccountStatusAlerts | backup_unused_files/enhanced_financial_alerts.py:382-482 | appends one alert per repeat violator not alerted in the last seven days |
| AlertGeneration.AlertStore.GenerateAllAlerts | backup_unused_files/enhanced_financial_alerts.py:484-499 | the four counts are the new alerts of each kind, and the total is their sum |
| AlertGeneration.NewLargeTransactionsFacts | backup_unused_files/enhanced_financial_alerts.py:154-170 | at most 100 recent transactions over the threshold and not yet alerted, all of them below the cap |
| AlertGeneration.LargeAlertsStayUnique | backup_unused_files/enhanced_financial_alerts.py:154-170 | adding the new alerts keeps one alert per transaction |
| AlertGeneration.UniqueUnion | backup_unused_files/enhanced_financial_alerts.py:154-198 | two key-unique tables with disjoint keys make a key-unique union |
| AlertGeneration.LargeRerunAddsNothing | backup_unused_files/enhanced_financial_alerts.py:154-170 | a rerun, now or later, after fewer than 100 new alerts finds no new transaction |
| AlertGeneration.NewSuspiciousFacts | backup_unused_files/enhanced_financial_alerts.py:216-245 | exactly the recent flagged results not yet alerted |
| AlertGeneration.TrackedFacts | backup_unused_files/enhanced_financial_alerts.py:255-281 | the tracked alerts' ids are the results', with their severity and status NEW, unique when the results are |
| AlertGeneration.PatternAlertsStayUnique | backup_unused_files/enhanced_financial_alerts.py:216-245 | adding the new pattern alerts keeps one alert per result |
| AlertGeneration.PatternRerunAddsNothing | backup_unused_files/enhanced_financial_alerts.py:216-245 | a rerun, now or later, finds no new flagged result |
| AlertGeneration.NewLowBalanceRow | backup_unused_files/enhanced_financial_alerts.py:316-346 | each found account is stored, under the threshold, not alerted in the last day, found once |
| AlertGeneration.NewLowBalancesComplete | backup_unused_files/enhanced_financial_alerts.py:316-346 | every such account is found |
| AlertGeneration.BalanceRerunSkipsAlerted | backup_unused_files/enhanced_financial_alerts.py:316-346 | a rerun within a day finds none of the accounts just alerted, and nothing at all at the same instant |
| AlertGeneration.RepeatedViolationRow | backup_unused_files/enhanced_financial_alerts.py:398-435 | each account found has at least 3 recent violations, or at least 2 flagged results in the fallback |
| AlertGeneration.DistinctCounts | backup_unused_files/enhanced_financial_alerts.py:398-435 | filtering distinct grouped counts keeps them distinct |
| AlertGeneration.StatusRerunSkipsAlerted | backup_unused_files/enhanced_financial_alerts.py:444-459 | a rerun within seven days finds none of the accounts just alerted |
| AlertGeneration.SelectRaisesAsWritten | backup_unused_files/enhanced_financial_alerts.py:154-172 | the alert tables live only in the alerts database, so each NOT IN query run on the transactions or fraud connection raises |
| AlertWorkflow.BuildWhereClauses | pages/4_financial_alerts.py:166-181 | the appended clauses, at most three, hold of an alert iff it passes the status, severity and days_back filters |
| AlertWorkflow.AllSatisfiedConcat | pages/4_financial_alerts.py:184-185 | AND-joining two clause lists is the conjunction of both |
| AlertWorkflow.AllSatisfiedOne | pages/4_financial_alerts.py:184-185 | a one-clause WHERE is that clause |
| AlertWorkflow.PageCount | pages/4_financial_alerts.py:191 | at least one page, and the ceiling of records / 20 when there are records |
| AlertWorkflow.PaginatedAlerts | pages/4_financial_alerts.py:160-207 | a failed read gives nothing; otherwise the count of matches and its page count |
| AlertWorkflow.PaginatedAlertsMatch | pages/4_financial_alerts.py:194-195 | a page has at most 20 matching stored alerts, those at offset 20·page of the newest-first matches |
| AlertWorkflow.PaginatedAlertsNewestFirst | pages/4_financial_alerts.py:194-195 | a page is ordered by created_at descending |
| AlertWorkflow.MatchingAlertOnItsPage | pages/4_financial_alerts.py:188-195 | the i-th match is on page i div 20, within the page count |
| AlertWorkflow.FindAlert | pages/4_financial_alerts.py:216-220 | None iff no alert has the id, else the stored alert with it |
| AlertWorkflow.AlertDatabase.Details | pages/4_financial_alerts.py:209-237 | None on a failed read or an unknown id; otherwise the alert and its action history |
| AlertWorkflow.ActionHistoryFacts | pages/4_financial_alerts.py:223-228 | the history holds exactly the alert's actions, by performed_at descending |
| AlertWorkflow.StatusChoices | pages/4_financial_alerts.py:513-521 | no choice for resolved or false_positive; otherwise only statuses other than new |
| AlertWorkflow.PageStatusChangesForward | pages/4_financial_alerts.py:513-521 | an offered change never returns to new and never starts from a terminal status |
| AlertWorkflow.StatusUpdatedFacts | pages/4_financial_alerts.py:245-256 | only the alert with that id changes, and only its status, updated_at and assigned_to |
| AlertWorkflow.AlertDatabase.UpdateAlertStatus | pages/4_financial_alerts.py:239-270 | on success the alert is updated and exactly one status_change action is appended; otherwise both tables are unchanged |
| AlertWorkflow.AlertDatabase.AddAlertAction | pages/4_financial_alerts.py:272-292 | on success exactly one action is appended; the alerts are never touched |
| AlertWorkflow.AlertDatabase.SubmitStatusChange | pages/4_financial_alerts.py:513-538 | an update happens iff the alert is shown, the status is offered and both fields are filled |
| Auth.ValidatePassword | auth.py:35-48 | valid iff at least 8 characters with an uppercase letter, a lowercase letter and a digit; the first failing check's message in that order |
| Auth.TrailingNewlineAcceptedAsWritten | auth.py:55 | as written "abc\n" passes the format check; the pattern accepts exactly the intended names plus those with one trailing newline |
| Auth.UsernameFormatChars | auth.py:55 | a name passing the intended check holds only letters, digits and underscores |
| Auth.UserStore.ValidateUsername | auth.py:50-68 | valid iff at least 4 characters, only word characters and not taken; the first failing check's message in that order |
| Auth.UserStore.CreateUser | auth.py:70-97 | the username is checked before the password; a new user is appended with the hash and is_active 1; any failure inserts nothing |
| Auth.UserStore.AuthenticateUser | auth.py:99-131 | succeeds iff an active row has the name and hash, returning its info and updating only its last_login |
| Auth.UserStore.SubmitLogin | auth.py:210-220 | an empty field is refused without a lookup; otherwise the session gets the user's info iff the login succeeds, and then only that user's last_login changes |
| Auth.UniqueAfterInsert | auth.py:16-26 | a fresh id and an untaken name keep usernames and ids unique |
| Auth.FindLogin | auth.py:101-111 | the first row matching name, hash and active flag, or None when no row does |
| Auth.LoggedInFacts | auth.py:115-118 | a login changes only last_login of the rows with that id and keeps both keys |
| Auth.LoginNeedsActiveAndPassword | auth.py:101-131 | a user whose rows are inactive or have another hash cannot log in |
| Auth.CreatedUserCanLogIn | auth.py:70-131 | a newly created user logs in with the password given |
| Auth.SignupCheck | auth.py:246-250 | the form goes on iff every field is filled and the passwords agree |
| UserProfile.FindCredentials | pages/user_profile.py:159-170 | the first row with the name and the hash of the current password, or None |
| UserProfile.PasswordChangedFacts | pages/user_profile.py:173-180 | only the hash of the rows with that id changes, and both keys stay unique |
| UserProfile.ChangePassword | pages/user_profile.py:151-183 | True iff the database works and the current password matches; then only that user's hash changes, otherwise nothing |
| UserProfile.NewPasswordLogsIn | pages/user_profile.py:173-180 | after the change an active user logs in with the new password and no longer with the old one |
| UserProfile.ProfileUpdatedFacts | pages/user_profile.py:191-194 | only the full name of the rows with that username changes |
| UserProfile.UpdateProfile | pages/user_profile.py:185-201 | True iff the database works, and then only the full names of that username change |
| UserProfile.PasswordFormCheck | pages/user_profile.py:103-108 | the form goes on iff every field is filled and the new passwords agree |
| UserProfile.SubmitPasswordChange | pages/user_profile.py:102-112 | shows the form's message, or changes only the matching user's hash to the new password's, and never writes otherwise |
| UserProfile.ProfileFormAction | pages/user_profile.py:138-149 | an empty name is refused, and a write happens iff the name is non-empty and different |
| UserProfile.SubmitProfile | pages/user_profile.py:118-149 | only a new non-empty name on a working database is written, with each outcome's message |
| UserProfile.CurrentFullName | pages/user_profile.py:119-131 | the stored full name of a row with the username, or the session's name when none has it |
| KpiTrend.PercentChange | app_new.py:67-71 | 100 or 0 when the previous count is 0; otherwise the change times the previous count is 100 times the difference |
| KpiTrend.PercentChangeSign | app_new.py:67-71 | the change is positive, zero or negative exactly as the count rose, stayed or fell |
| KpiTrend.KpiTrend | app_new.py:51-75 | (0, 0) on a failed query, else the current count with its percent change against the previous one |
| KpiTrend.TrendOf | app_new.py:265-287 | neutral iff no change; up iff a rise not inverted or a fall inverted; down otherwise |
| KpiTrend.InvertedSwaps | app_new.py:277-287 | toggling `inverted` swaps up and down and keeps neutral |
| KpiTrend.Magnitude | app_new.py:285-294 | the magnitude shown is the non-negative absolute change |
| KpiTrend.KpiTrendDirection | app_new.py:59-75 | the arrow follows the comparison of this week's count with last week's, and is neutral on failure |
| KpiTrend.FraudRate | app_new.py:260 | 0 without results, else the rate times the number of results is 100 times the flagged ones |
| KpiTrend.FraudRateBounds | app_new.py:260 | the rate lies within 0–100, and is 100 iff every result is flagged |
| Paging.TotalPagesIsCeiling | pages/3_fraud_detection.py:174 | `(total + size - 1) // size` is the ceiling of total / size |
| Paging.Page | pages/3_fraud_detection.py:167-168 | LIMIT size OFFSET page·size gives the rows from that offset, at most size of them |
| Paging.RowOnPage | pages/1_multiple_accounts.py:406-414 | every row is on exactly one page, within the page count |
| Tables.InsertAllKeys | pages/1_multiple_accounts.py:326-348 | after INSERT OR IGNORE a key is present iff it was stored or inserted |
| Tables.InsertAllUnique | pages/1_multiple_accounts.py:326-348 | INSERT OR IGNORE keeps keys unique |
| Tables.InsertAllIdempotent | pages/1_multiple_accounts.py:326-348 | repeating the same inserts changes nothing |
| Tables.InsertAllKeepsRows | pages/1_multiple_accounts.py:312-348 | stored rows stay in front; the new ones come from the inserted rows |
| Tables.Limit | initialize_real_alerts.py:129-140 | LIMIT n keeps the first min(n, rows) rows |
| Tables.Where | initialize_real_alerts.py:129-140 | every kept row is a table row satisfying the condition, and every satisfying row is kept |
| Tables.WhereCounts | initialize_real_alerts.py:129-140 | each satisfying row is kept as many times as the table holds it, and no other row is kept |
| Sorting.SortBySorted | pages/1_multiple_accounts.py:447 | ORDER BY with a total preorder gives a sorted result |
| Sorting.SortBy | pages/1_multiple_accounts.py:447 | ORDER BY permutes the rows |

## Left out

- SQLite, pandas and Streamlit are not modelled: connections, schemas, PRAGMAs, `to_sql`/`read_sql`, widgets, session state, charts, CSS and HTML. Tables are in-memory sequences, and each database call either works, has no connection, or has a failing statement, given as a parameter.
- `pd.to_datetime` and `isocalendar`: a timestamp comes with its date, hour, weekday and ISO year and week already extracted, and a cell that does not parse is a separate value.
- The fraud model, its scaler and its label encoder are opaque function parameters; training code is not part of this model.
- SHA-256 is a caller-supplied function from string to string.
- `datetime.now` and SQL `'now'` are a `now` parameter (seconds). UTC and local time are not distinguished, and string timestamp comparisons are comparisons of instants.
- Float rendering is not modelled: `round(2)`, currency and percent strings, CSV and Excel export. Amounts are exact reals. `round(4)` appears only where it decides a colour.
- SQL `ORDER BY` ties and pandas sort ties are modelled by a stable sort. pandas group output order is modelled as first-appearance order, not sorted keys. A `LIMIT` without `ORDER BY` keeps table order.
- `\d` in the password check is the ASCII digit class here; the other Unicode digits that Python's `\d` accepts are not modelled.
- num_accounts and num_banks equal the distinct counts only for names without commas, because the source counts commas in the joined list (DistinctCountsWithoutCommas states that case, CommaInAccountIdCountsTwice the other).
- LimitMonitoring.Violations: weekly groups are keyed by ISO year and ISO week, the corrected key from the Findings. pages/2_limit_monitoring.py:282-298 and 2_limit_monitoring.py:224-241 key them by calendar year and ISO week instead. With a weekly limit of 5000, 3000 paid on 2024-01-01 and 3000 on 2024-12-30 form one flagged group of 6000 in the source, labelled "Week 1, 2024". Here they are two groups of 3000, and neither is flagged.
- LimitMonitoring.AnalyzeReportsFlagged: its weekly report is over that corrected weekly grouping, so it differs from the source's only for rows whose ISO year is not their calendar year, which happens around New Year.
- LimitPage.AnalyzeLimits: delegates to the engine, and so to the corrected weekly key.
- LimitPage.AnalyzeLimitsFlagged: "exactly the flagged groups" is about the corrected weekly grouping, not the one at pages/2_limit_monitoring.py:294.
- LimitRoot.AnalyzeLimits: delegates to the same engine, so the weekly key is the corrected one, not the one at 2_limit_monitoring.py:236.
- MultipleAccountsPage.Selected: the date filter compares dates. So a transaction at 10:00 on the end date is selected, although `timestamp BETWEEN ? AND ?` at pages/1_multiple_accounts.py:372-374 drops it (AsWrittenRangeDropsEndDate).
- MultipleAccountsPage.ListingCorrect: "passing" is that corrected date range.
- MultipleAccountsPage.PaginatedDataRows: the rows pass the corrected date range.
- MultipleAccountsPage.PaginatedDataCounts: the count includes rows later than midnight on the end date, while the source's `COUNT(*)` leaves them out.
- AlertGeneration.AlertStore.GeneratePatternDeviationAlerts: the source's pattern_deviation_alerts table has no transaction_id column (backup_unused_files/enhanced_financial_alerts.py:57-66), and its INSERT stores none (283-287). The model keeps each alert's transaction id (TrackedPattern), so that the NOT IN dedup of lines 230-239 can be stated at all. As written, that subquery names a missing column. PatternAlertsStayUnique, PatternRerunAddsNothing and NewSuspiciousFacts hold over this added key only.
- AlertWorkflow.AlertDatabase.SubmitStatusChange: the "Update Alert" button is nested inside `if st.button("View Details")` (pages/4_financial_alerts.py:490-528). After a rerun the outer button reads False, so the page cannot reach `update_alert_status`. The model treats a shown alert as still shown when the form is submitted.
- The in-place addition of date, week, month and year columns to the caller's frame is not modelled; each analysis returns its result instead.
- FraudFeatures.PreprocessData: both copies' `except` blocks log and re-raise (3_fraud_detection.py:255-257, pages/3_fraud_detection.py:281-283). With timestamps pre-parsed, only the missing-column error can be raised, and that is the one modelled.
- MultipleAccountsRoot.StatsPercent: states the bounds and the 0 and 100 cases, not the product count · 100 / individuals. `to_sql` is all-or-nothing per call.
- AlertSeeding.AlertsDatabase.GenerateLargeTransactionAlerts: requires the settings row to exist, as the source's `fetchone()[0]` does; a missing row, which raises there, is not modelled.
- AlertGeneration.AlertStore.GenerateAccountStatusAlerts: the violations query, which raises on the real schema, is an Option parameter (None means it raised and the fallback on flagged results runs).
- AlertGeneration.AlertStore: the alert tables always exist in the store; the generators use the corrected query on the alerts database (see Findings).
- AlertWorkflow.AlertDatabase.AddAlertAction: an action row for an unknown alert id is appended as the source does; the foreign key is not checked. CURRENT_TIMESTAMP and the local cutoff used by days_back are both `now`.
- Auth.UserStore.ValidateUsername: a failing database read, which raises there, is not modelled. The format check is the corrected one (only word characters). So "abcd\n", which auth.py:55 accepts, is refused here with the format message.
- Auth.UserStore.CreateUser: uses that corrected username check, so it refuses "abcd\n", which auth.py:70-97 would create.
- UserProfile.SubmitProfile: the session-state update and the rerun after a save are not modelled.

## Findings

| source | as written | input that shows it | evidently intended | confidence | as-written member | corrected member |
|---|---|---|---|---|---|---|
| pages/2_limit_monitoring.py:282-298 | weekly groups are keyed by calendar year and ISO week (the top-level copy, 2_limit_monitoring.py:224-241, does the same) | 2024-01-01 and 2024-12-30 are both (2024, week 1), a year apart | group by ISO year and ISO week | not executed | LimitMonitoring.WeekKeyAsWrittenMergesYears | LimitMonitoring.WeeklyGroupsAreCalendarWeeks |
| 1_multiple_accounts.py:262-270 | id columns are converted to strings before the null check | a row with no individual_id passes as "nan" | reject empty cells before converting | not executed | MultipleAccountsRoot.EmptyIndividualBecomesNan | MultipleAccountsRoot.CheckedValidationRejectsEmptyCells |
| 3_fraud_detection.py:548 | the red colour is decided on the probability rounded to four places | probability 0.29996 is shown red but flagged 0 | colour exactly the flagged rows | not executed | FraudRoot.RoundedColourDisagreesWithFlag | FraudRoot.ColourMatchesThreshold |
| pages/1_multiple_accounts.py:373 | `timestamp BETWEEN ? AND ?` with bare dates | a transaction at 10:00 on the end date is not listed | include the whole end date | not executed | MultipleAccountsPage.AsWrittenRangeDropsEndDate | MultipleAccountsPage.EndDateIsListed |
| auth.py:55 | `^[a-zA-Z0-9_]+$` with `re.match`, where `$` also matches before a final newline | "abc\n" (four characters) passes | only word characters | not executed | Auth.TrailingNewlineAcceptedAsWritten | Auth.UserStore.ValidateUsername |
| backup_unused_files/enhanced_financial_alerts.py:154-172 | the NOT IN subquery on the alert table runs on the transactions or fraud connection | any run after initialisation: that database has no alert table, so the query raises | run the dedup check against the alerts database | not executed | AlertGeneration.SelectRaisesAsWritten | AlertGeneration.LargeRerunAddsNothing |
