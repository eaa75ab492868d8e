# Customer segmentation: RFM scoring, record cleaning and segment tables in Dafny

This project models the core of a customer-segmentation toolkit and proves
properties of that model. The toolkit has three parts.

- **RFM engine** (`CustomerSegmentation`). It turns a transaction table
  into one row per customer: Recency (days since the last purchase),
  Frequency (number of purchases) and Monetary (total spent). Each metric
  becomes a 1–5 score by five equal-width bins. Recency is binned directly
  with reversed labels. Frequency and Monetary are binned on their
  first-occurrence ranks. An 11-way first-match cascade then labels each
  score triple with a segment. The engine can choose a cluster count and
  attach k-means labels, and it summarises the table per segment and per
  cluster.
- **Preprocessor** (`CustomerDataPreprocessor`). It cleans a raw
  transaction table step by step:
  - it drops rows missing a critical field and fills the other gaps;
  - it removes exact duplicates, then repeated (customer, date, amount) keys;
  - it drops future-dated rows, and negative or zero amounts;
  - it maps category spellings to a standard name;
  - it caps outliers to given bounds;
  - it adds a season column and an amount-band column;
  - finally, it validates the result.
- **Visualizer tables.** These are the per-segment statistics behind the
  comparison chart and the R-score by F-score count matrix behind the
  heatmap.

Modules follow the program's structure:

- `Rfm`, `Binning`, `Segments` and `Rounding` hold the scoring engine.
- `ClusterSelection` holds the choice of k.
- `SegmentAnalysis` holds the summaries.
- `Segmentation` holds the stateful `CustomerSegmentation` class.
- `PreprocessingRules` holds the cleaning rules, one function per step, and
  `Preprocessor` holds the `CustomerDataPreprocessor` class. The class
  methods update `processedData` in place and are proved equal to those
  functions.
- `Visualization` holds the two chart tables.
- `Seqs` and `Wrappers` hold the generic building blocks. These are
  filter, group-by, sum, stable sort, keep-first de-duplication and
  `Option`.

Representation choices:

- Dates are day numbers and money is an exact `real`.
- In the cleaning model a missing value (NaN, NaT) is `None`. The RFM engine takes complete transactions (see "## Left out").
- `round(2)` is round-half-even to two decimals.
- A group-by lists its groups in sorted key order. For segments this is
  the alphabetical order of their labels, proved in
  `Segments.ByNameIsSorted`.

Some facts about the code that a reader might not expect, each stated as
the model states it:

- **Cannot Lose Them is never produced.** Its guard, m ≥ 4 and r == 1
  (python/customer_segmentation.py:182), implies the guard checked before it
  for At Risk, m ≥ 4 and r ≤ 2 (python/customer_segmentation.py:180). So a
  customer scored r=1, f=1, m=5 is At Risk (`Segments.ClassifyExamples`),
  and no score triple reaches Cannot Lose Them (`Segments.Classify`,
  `Segments.CannotLoseThemShadowed`).
- **Recency is not always ≥ 0.** It is the analysis date minus the
  customer's latest purchase (python/customer_segmentation.py:144). It is
  ≥ 0 for every customer when the date defaults to the latest transaction
  (python/customer_segmentation.py:136-137, `Rfm.DefaultRecency`). A
  caller-supplied earlier `analysis_date` gives a negative Recency.
- **Monetary is not always > 0.** It is the rounded sum of the customer's
  amounts (python/customer_segmentation.py:146-147), and nothing in the
  RFM engine rejects zero or negative amounts.
- **Capping applies the upper bound first.** The first `np.where` replaces
  values above the upper bound, and the second replaces values below the
  lower bound (python/data_preprocessing.py:327-338). The result is
  max(min(v, upper), lower). This equals min(max(v, lower), upper) exactly
  when lower ≤ upper, which is the case `PreprocessingRules.Cap` states.
- **A transaction with no date is in Fall.** Its month is NaN, which none
  of `get_season`'s lists contains, so the `else` branch gives Fall
  (python/data_preprocessing.py:355-365, `PreprocessingRules.DeriveRow`).

## Model

| member | source | states |
|---|---|---|
| Rounding.RoundHalfEven | python/customer_segmentation.py:147 | the nearest integer, within 1/2 of x; on an exact tie the even neighbour |
| Rounding.Round2 | python/customer_segmentation.py:147 | `round(2)`: a whole number of cents, within half a cent of the exact value, and on an exact half cent the even number of cents |
| Rounding.RoundedMeanTimesCount | python/visualization.py:175-178 | the rounded mean of c values times c is within (c + 1) half cents of the rounded total |
| Rounding.Round2Cents | python/customer_segmentation.py:147 | a value that already has two decimals is unchanged by rounding |
| Rounding.Round2Monotone | python/customer_segmentation.py:274 | rounding never swaps the order of two values |
| Rfm.CustomerIds | python/customer_segmentation.py:143 | the group keys: strictly ascending, and exactly the customer ids that occur |
| Rfm.Purchases | python/customer_segmentation.py:143 | a customer's group holds exactly that customer's transactions |
| Rfm.LatestDate | python/customer_segmentation.py:136-137 | the default analysis date: some transaction has it and none is later |
| Rfm.CustomerMetrics | python/customer_segmentation.py:143-147 | Recency = analysis date − latest purchase; Frequency = purchase count ≥ 1; Monetary = rounded sum of amounts |
| Rfm.MetricsTable | python/customer_segmentation.py:143-151 | one metrics row per customer id, in group-key order |
| Rfm.OneRowPerCustomer | python/customer_segmentation.py:143-151 | row ids strictly ascending and exactly the ids that occur; each Frequency is that customer's count, ≥ 1 |
| Rfm.DefaultRecency | python/customer_segmentation.py:136-144 | with the default date every Recency is ≥ 0, and it is 0 exactly for customers holding the latest date |
| Rfm.FrequencyConservation | python/customer_segmentation.py:145 | the Frequency column sums to the number of transactions |
| Rfm.MonetaryConservation | python/customer_segmentation.py:146 | before rounding, the per-customer totals add up to the total of all amounts |
| Rfm.ScoreRow | python/customer_segmentation.py:154-189 | every score in 1..5 and RFM_Score in [1, 5]; which bin each score is is stated by `Rfm.ScoreRowFacts` |
| Rfm.ScoreRowFacts | python/customer_segmentation.py:154-189 | a scored row keeps its metrics; R_Score is 6 minus the equal-width bin of its Recency between the column's minimum and maximum; F_Score and M_Score are the equal-width bins over 1..n of its first-occurrence ranks; RFM_Score × 3 = R + F + M; the label is the cascade's |
| Rfm.ScoreTable | python/customer_segmentation.py:154-189 | one scored row per metrics row, in order |
| Rfm.RfmTable | python/customer_segmentation.py:131-194 | None exactly when there are no transactions (binning an empty column fails); otherwise one row per customer |
| Rfm.RScoreAntitone | python/customer_segmentation.py:154-155 | a smaller Recency never gets a lower R_Score |
| Rfm.FScoreMonotone | python/customer_segmentation.py:156-157 | a larger Frequency, or an equal one further down the table, never gets a lower F_Score |
| Rfm.MScoreMonotone | python/customer_segmentation.py:158-159 | a larger Monetary, or an equal one further down the table, never gets a lower M_Score |
| Binning.EqualWidthBin | python/customer_segmentation.py:154-159 | `pd.cut(bins=5)`: the bin is in 1..5; v lies at or below its right edge and above the previous one; a constant column falls in bin 3 |
| Binning.BinMonotone | python/customer_segmentation.py:154-159 | larger values never fall in a lower bin |
| Binning.BinEnds | python/customer_segmentation.py:154-159 | the minimum falls in bin 1 and the maximum in bin 5 |
| Binning.RankFacts | python/customer_segmentation.py:156 | `rank(method='first')`: ranks lie in 1..n, follow the values, break ties by position, and differ between rows |
| Binning.Ranks | python/customer_segmentation.py:156-159 | the rank column has one rank per value |
| Binning.RanksArePermutation | python/customer_segmentation.py:156-159 | the ranks are exactly a permutation of 1..n |
| Binning.RecencyScore | python/customer_segmentation.py:154-155 | R_Score is 6 minus the bin, in 1..5 |
| Binning.RankScore | python/customer_segmentation.py:156-159 | a rank's bin, in 1..5 |
| Binning.RecencyScoreAntitone | python/customer_segmentation.py:154-155 | R_Score is antitone in Recency |
| Binning.RankScoreMonotone | python/customer_segmentation.py:156-159 | F/M scores are monotone in rank |
| Segments.NameRank | python/customer_segmentation.py:268 | every label has a position in alphabetical order |
| Segments.ByNameIsSorted | python/customer_segmentation.py:268 | the label order used for groups is strictly increasing in string order |
| Segments.Classify | python/customer_segmentation.py:165-187 | the cascade: r ≥ 4 gives only Champions, Potential Loyalists or New Customers; Cannot Lose Them is never returned |
| Segments.ClassifyExamples | python/customer_segmentation.py:165-187 | (5,5,5) is Champions and (1,1,5) is At Risk |
| Segments.LiveSegments | python/customer_segmentation.py:165-187 | every other label is produced by some triple of scores in 1..5 |
| Segments.FirstMatch | python/customer_segmentation.py:165-187 | the first rule whose guard holds: no earlier guard holds |
| Segments.RulesTotal | python/customer_segmentation.py:186-187 | the rule table always matches (it ends in the catch-all) |
| Segments.GuardMeaning | python/customer_segmentation.py:166-185 | each table guard means the cascade's condition |
| Segments.ClassifyIsFirstMatch | python/customer_segmentation.py:165-187 | the cascade gives the label of the first matching rule, for every input |
| Segments.CannotLoseThemShadowed | python/customer_segmentation.py:180-183 | the Cannot Lose Them guard implies the At Risk guard, so it is never the first match |
| ClusterSelection.FirstArgmaxUnique | python/customer_segmentation.py:256 | the first best candidate is unique |
| ClusterSelection.LabelSetSize | python/customer_segmentation.py:235 | a labelling has at most as many distinct labels as entries, and exactly as many when no label repeats |
| ClusterSelection.SilhouetteUndefined | python/customer_segmentation.py:235 | the score is undefined for a single cluster and for one cluster per customer |
| ClusterSelection.FindOptimalClusters | python/customer_segmentation.py:242-259 | None exactly when the range 2..min(max, n−1) is empty (`np.argmax` of nothing fails); otherwise the first k with the highest score |
| SegmentAnalysis.PresentSegments | python/customer_segmentation.py:268 | the group keys: exactly the labels that occur, in label order |
| SegmentAnalysis.PresentIsDistinct | python/customer_segmentation.py:268 | no label is a key twice |
| SegmentAnalysis.SegmentRows | python/customer_segmentation.py:268 | a segment group holds exactly that segment's rows |
| SegmentAnalysis.PresentHasRows | python/customer_segmentation.py:268 | every key has a non-empty group |
| SegmentAnalysis.Summarize | python/customer_segmentation.py:268-279 | a summary row has its segment and the group's size, ≥ 1 |
| SegmentAnalysis.SummaryMeans | python/customer_segmentation.py:268-274 | each mean column is the group mean rounded to two decimals; mean Monetary is within half a cent of the exact mean |
| SegmentAnalysis.SummaryShare | python/customer_segmentation.py:276-279 | Percentage is within half a hundredth of count / N × 100 |
| SegmentAnalysis.GroupedSegments | python/customer_segmentation.py:268-279 | one summary per present segment, in key order |
| SegmentAnalysis.SegmentTable | python/customer_segmentation.py:268-282 | one row per present segment, sorted by mean Monetary descending, a permutation of the grouped rows |
| SegmentAnalysis.TableRowsAreSummaries | python/customer_segmentation.py:268-282 | every table row is the summary of its own present segment |
| SegmentAnalysis.SegmentLabelsDistinct | python/customer_segmentation.py:268-282 | no segment has two rows |
| SegmentAnalysis.SegmentLabelsPresent | python/customer_segmentation.py:268-282 | the Segment column holds exactly the labels that occur |
| SegmentAnalysis.CountsSumToTotal | python/customer_segmentation.py:269 | the counts add up to the number of customers |
| SegmentAnalysis.TableShares | python/customer_segmentation.py:277-279 | every row's Percentage is within half a hundredth of its exact share |
| SegmentAnalysis.PercentagesSumTo100 | python/customer_segmentation.py:277-279 | the rounded percentages add up to 100, to within half a hundredth per table row |
| SegmentAnalysis.SummarizeCluster | python/customer_segmentation.py:287-296 | a cluster row: its label, its size, the rounded means and the rounded share |
| SegmentAnalysis.ClusterTable | python/customer_segmentation.py:286-296 | one row per distinct label, in ascending label order, each the summary of that cluster |
| SegmentAnalysis.ClusterLabelsPresent | python/customer_segmentation.py:287 | the table lists exactly the labels that occur |
| SegmentAnalysis.ClusterCountsSumToTotal | python/customer_segmentation.py:288 | the cluster counts add up to the number of customers |
| Segmentation.Summaries | python/customer_segmentation.py:267-301 | the cluster summary is there exactly when cluster labels are; one segment row per present segment |
| Segmentation.CustomerSegmentation.constructor | python/customer_segmentation.py:69-87 | the loaded transactions, nothing computed |
| Segmentation.CustomerSegmentation.CalculateRfm | python/customer_segmentation.py:131-194 | returns the scored table of the loaded transactions and stores it, without a Cluster column; on an empty table nothing changes |
| Segmentation.CustomerSegmentation.PerformKmeansClustering | python/customer_segmentation.py:196-240 | NoRfmData exactly when there is no scored table. k is the given count or the first best candidate. It fails, with the Cluster column unchanged, exactly when k is outside 1..n or the labelling has the wrong length. Otherwise the Cluster column is set to the labels; then the score fails (ScoreFailed) exactly when the labels do not take between 2 and n − 1 distinct values, and otherwise the result carries k, the labels and the score |
| Segmentation.CustomerSegmentation.AnalyzeSegments | python/customer_segmentation.py:261-303 | None exactly without a scored table; otherwise the summaries of the table and its Cluster column, stored in `segmentedData` |
| PreprocessingRules.DropMissing | python/data_preprocessing.py:171 | keeps exactly the rows that have the field |
| PreprocessingRules.DropMissingFieldsFacts | python/data_preprocessing.py:166-174 | dropping field by field deletes rows only and keeps exactly the rows having every field |
| PreprocessingRules.CriticalFieldsPresent | python/data_preprocessing.py:166-174 | afterwards no row lacks a critical field, and every complete row survives, order kept |
| PreprocessingRules.FillValue | python/data_preprocessing.py:176-191 | a present value is kept; a gap is filled when the column exists and a fill value exists |
| PreprocessingRules.FillMissing | python/data_preprocessing.py:176-191 | filling keeps the row count and fills row by row |
| PreprocessingRules.FillKeepsValues | python/data_preprocessing.py:176-191 | filling keeps the critical fields and every present value, and leaves no category gap |
| PreprocessingRules.HandleMissingFacts | python/data_preprocessing.py:159-194 | every remaining row is complete and filled, and every complete input row survives |
| PreprocessingRules.ExactPassRedundant | python/data_preprocessing.py:201-208 | after the key pass, the exact-duplicate pass changes nothing in the result |
| PreprocessingRules.RemoveDuplicatesFacts | python/data_preprocessing.py:196-208 | a subsequence with distinct (customer, date, amount) keys, every key kept, the first occurrence kept |
| Seqs.DropDuplicatesSpec | python/data_preprocessing.py:201-208 | `drop_duplicates(keep='first')`: subsequence, distinct keys, every key kept, first occurrence kept |
| PreprocessingRules.FutureDatesGone | python/data_preprocessing.py:246-250 | no date after `now` remains, rows are only deleted in order, and every row dated on or before `now` survives |
| PreprocessingRules.DropNegativeFacts | python/data_preprocessing.py:266-270 | no negative value remains; only rows are deleted, in order |
| PreprocessingRules.DropZeroFacts | python/data_preprocessing.py:272-277 | no zero value remains; only rows are deleted, in order |
| PreprocessingRules.CleanColumnFacts | python/data_preprocessing.py:264-277 | one column: no negative value, no zero for the amount columns, and acceptable rows survive |
| PreprocessingRules.CleanMoneyFacts | python/data_preprocessing.py:258-277 | every present monetary column is non-negative and the amount columns are positive; rows are only deleted, in order |
| PreprocessingRules.Lookup | python/data_preprocessing.py:293-301 | the reference mapping: a non-key is unchanged, a key maps to one of the outputs |
| PreprocessingRules.MappingOutputsAreNotKeys | python/data_preprocessing.py:293-301 | no output of the mapping is one of its keys |
| PreprocessingRules.SequentialIsLookup | python/data_preprocessing.py:303-304 | applying the replacements one after another equals the single lookup |
| PreprocessingRules.LookupIdempotent | python/data_preprocessing.py:303-304 | when no output is a key, mapping twice equals mapping once |
| PreprocessingRules.CategoryMappingIdempotent | python/data_preprocessing.py:293-304 | the category mapping applied twice equals applied once |
| PreprocessingRules.MapCategories | python/data_preprocessing.py:286-304 | the category column of each row is standardised; other columns are untouched |
| PreprocessingRules.ReplaceCategory | python/data_preprocessing.py:304 | one `replace` maps each category value and keeps the rows |
| PreprocessingRules.MapCategoriesSnoc | python/data_preprocessing.py:303-304 | one more `replace` on the mapped column is the mapping by one more pair |
| PreprocessingRules.Cap | python/data_preprocessing.py:327-338 | with lower ≤ upper the result is in [lower, upper]; a value inside is unchanged; one outside becomes the bound |
| PreprocessingRules.CapColumnIsRowwise | python/data_preprocessing.py:321-338 | capping a column (only when some value is outside) is the row-by-row cap |
| PreprocessingRules.CapKeepsSign | python/data_preprocessing.py:327-338 | with a non-negative upper bound, capping keeps a non-negative value non-negative |
| PreprocessingRules.SeasonIsQuarter | python/data_preprocessing.py:355-365 | {12,1,2} Winter, {3,4,5} Spring, {6,7,8} Summer, otherwise Fall |
| PreprocessingRules.AmountCategoryBins | python/data_preprocessing.py:368-376 | band k holds exactly the amounts in [edge k, edge k+1), with the last band unbounded |
| PreprocessingRules.DeriveRow | python/data_preprocessing.py:346-376 | every row gets a season, Fall when the date is missing, and only the derived columns change |
| PreprocessingRules.DeriveFeatures | python/data_preprocessing.py:342-376 | one derived row per row, in order |
| PreprocessingRules.FilteredIsSound | python/data_preprocessing.py:159-277 | after the row-deleting steps every row is complete, not in the future, non-negative in amount and total, and filled |
| PreprocessingRules.LaterStepsKeepSound | python/data_preprocessing.py:279-376 | the category, capping and derived steps keep a row sound, and leave a filled row without gaps |
| PreprocessingRules.MissingValuesZero | python/data_preprocessing.py:388 | the table has no missing value exactly when no row has one |
| PreprocessingRules.DuplicatedIsRemoved | python/data_preprocessing.py:389 | the duplicate count is 0 exactly when no two rows are equal |
| PreprocessingRules.Validate | python/data_preprocessing.py:378-431 | no report exactly without a processed table; otherwise the record count is the table's size |
| PreprocessingRules.ValidationPassedMeans | python/data_preprocessing.py:419-424 | the overall flag holds exactly when no value is missing, no date is in the future and no amount or total is negative |
| PreprocessingRules.CleanedRows | python/data_preprocessing.py:121-157 | every cleaned row is sound at any later time, and has no gap when the numeric columns had fill values |
| PreprocessingRules.CleanedPassesChecks | python/data_preprocessing.py:395-416 | a cleaned table passes the critical-field, date and monetary checks |
| PreprocessingRules.CleanedPassesValidation | python/data_preprocessing.py:419-424 | with fill values for both numeric columns the cleaned table passes validation |
| Preprocessor.CustomerDataPreprocessor.constructor | python/data_preprocessing.py:41-56 | the loaded raw table and its columns, nothing processed |
| Preprocessor.CustomerDataPreprocessor.HandleMissingValues | python/data_preprocessing.py:159-194 | the processed table becomes `HandleMissing` of the old one; the loop over critical fields is that function's fold |
| Preprocessor.CustomerDataPreprocessor.RemoveDuplicateRows | python/data_preprocessing.py:196-214 | the processed table becomes `RemoveDuplicates` of the old one |
| Preprocessor.CustomerDataPreprocessor.CleanDateColumns | python/data_preprocessing.py:234-256 | the processed table becomes `DropFutureDates` of the old one |
| Preprocessor.CustomerDataPreprocessor.CleanMonetaryValues | python/data_preprocessing.py:258-277 | the processed table becomes `CleanMoney` over all monetary columns |
| Preprocessor.CustomerDataPreprocessor.StandardizeTextFields | python/data_preprocessing.py:279-304 | the processed table becomes `MapCategories` with the category mapping |
| Preprocessor.CustomerDataPreprocessor.HandleOutlierValues | python/data_preprocessing.py:306-340 | the processed table becomes `HandleOutliers` with the given bounds |
| Preprocessor.CustomerDataPreprocessor.CreateDerivedFeatures | python/data_preprocessing.py:342-376 | the processed table becomes `DeriveFeatures` of the old one |
| Preprocessor.CustomerDataPreprocessor.CleanCustomerData | python/data_preprocessing.py:121-157 | None without raw data; otherwise the processed table is `CleanAll` of the raw table and is returned |
| Preprocessor.CustomerDataPreprocessor.ValidateProcessedData | python/data_preprocessing.py:378-431 | the report its loops compute equals `Validate` of the processed table |
| Visualization.Stat | python/visualization.py:171-178 | a statistics row has its segment and the group's size, ≥ 1 |
| Visualization.StatValues | python/visualization.py:171-178 | mean columns are the rounded group means; Avg_Monetary and Total_Revenue are within half a cent of the exact mean and sum |
| Visualization.StatMeanTimesCount | python/visualization.py:171-178 | Avg_Monetary × Customer_Count is within (Customer_Count + 1) half cents of Total_Revenue |
| Visualization.GroupedStats | python/visualization.py:171-179 | one statistics row per present segment, in key order |
| Visualization.StatsTable | python/visualization.py:171-180 | one row per present segment, sorted by Total_Revenue ascending, a permutation of the grouped rows |
| Visualization.SegmentStats | python/visualization.py:164-180 | None exactly without a table or without a Segment column; otherwise the statistics table |
| Visualization.StatsRowsAreStats | python/visualization.py:171-180 | every row is the statistic of a segment that occurs |
| Visualization.StatsSegmentsDistinct | python/visualization.py:171-179 | no segment has two rows |
| Visualization.StatsSegmentsPresent | python/visualization.py:171-179 | the table lists exactly the segments that occur |
| Visualization.StatCountsSumToTotal | python/visualization.py:171-179 | Customer_Count adds up to the number of customers |
| Visualization.CountMatrix | python/visualization.py:229-236 | rows and columns are the R and F scores present, ascending; cell (i, j) counts the customers with that pair |
| Visualization.ScoreHeatmap | python/visualization.py:216-236 | None exactly without a table or when any score column is missing; otherwise the count matrix the heatmap is drawn from (the Python function itself returns None on every path after plotting) |
| Visualization.CellCounts | python/visualization.py:229-236 | a cell counts exactly the customers with that pair, so an absent pair is 0 |
| Visualization.HeatmapRowTotal | python/visualization.py:229-236 | a matrix row adds up to the customers with that R score |
| Visualization.HeatmapTotal | python/visualization.py:229-236 | all cells add up to the number of customers |
| Seqs.SortBy | python/customer_segmentation.py:282 | `sort_values`: the result is sorted on the key and is a permutation of the input |
| Seqs.Filter | python/data_preprocessing.py:171 | a boolean mask keeps exactly the elements that pass, never more than the input |
| Seqs.Group | python/customer_segmentation.py:268 | a group holds exactly the elements with that key |
| Seqs.SortedDistinct | python/customer_segmentation.py:287 | sorted distinct keys: strictly ascending, exactly the values that occur |

## Left out
- Rfm.Transaction: the RFM engine takes complete transactions. `calculate_rfm` runs on the unprocessed table, where `groupby` drops a row with a NaN customer_id, `max()` skips a NaT date, and `'sum'` skips a NaN amount while `'count'` still counts the row (python/customer_segmentation.py:143-146). None of this is modelled.
- Rfm.CustomerMetrics and PreprocessingRules.DropFutureDates: dates are whole day numbers, so the time of day is lost. In the source, `.days` floors the Timedelta from the analysis date to the latest purchase (python/customer_segmentation.py:144), and `datetime.now()` carries a time of day (python/data_preprocessing.py:246-249, :406). For example, with an analysis date of 2024-12-31 00:00 and a last purchase on 2024-12-30 05:15, the source gives Recency 0 and the model 1. Likewise a purchase later on the current day is not future in the model, though the source drops it.
- Segmentation.CustomerSegmentation.CalculateRfm returns the scored table as a value. The source returns the same DataFrame it stores in `rfm_data` (python/customer_segmentation.py:191-194), so the Cluster column that `perform_kmeans_clustering` later adds in place (:220) also appears in the caller's copy. This aliasing is not modelled.

- Loading and saving are not modelled: the database, CSV, Excel and JSON, the report writer, logging and the `main` drivers. Both constructors take the loaded table as it comes.
- Random sample data (`_generate_sample_data`) is not modelled.
- scikit-learn is not modelled: StandardScaler, KMeans, `silhouette_score` and PCA are foreign numeric code. `PerformKmeansClustering` takes the silhouette score per k and the k-means labelling per k as parameters. k-means is taken to fail for k outside 1..n. `silhouette_score` is taken to fail exactly when the labels do not take between 2 and n − 1 distinct values.
- ClusterSelection.FindOptimalClusters: the `silhouette_score` call inside the candidate loop is taken not to fail. It would raise if k-means gave a candidate k fewer than 2 distinct labels, and the model does not see the candidate labellings.
- Segmentation.CustomerSegmentation.PerformKmeansClustering: the min/mean/max cluster summary it builds, and the `features` parameter, are not modelled. It returns only k, the labels and the score.
- The inertias list of `_find_optimal_clusters` is not modelled, because the code never reads it.
- `datetime.now()` is a parameter `now`.
- The calendar month of a date is a parameter `monthOf`.
- The year, quarter, weekday and ISO-week columns are not modelled, because they need calendar arithmetic.
- Very-old-date logging is not modelled: it only logs.
- The conversions `to_datetime` and `to_numeric` with coercion, and `_standardize_data_types`, are not modelled. Values are already typed here.
- The median and mode fill values are inputs (`Fills`), because they are pandas statistics of the column.
- The outlier bounds Q1 − 3·IQR and Q3 + 3·IQR are inputs (`Bounds`), because they are interpolated quantiles.
- The data-quality report and its outlier analysis are not modelled: a float report.
- `str.strip` and `str.title` on text columns are identity here. A missing category becomes the text "Nan", as `astype(str)` and `title` make it. Other text columns (name, location, region) are not modelled.
- Preprocessor.CustomerDataPreprocessor.ValidateProcessedData counts missing values only over the columns the model has. The source counts them over every column of the table.
- PreprocessingRules.Duplicated compares rows only on the modelled columns. `duplicated()` compares every column (python/data_preprocessing.py:389).
- Rfm.RfmTable uses the fixed columns customer_id, transaction_date and transaction_amount. The `customer_col`, `date_col` and `amount_col` parameters of `calculate_rfm` (python/customer_segmentation.py:131-132) are not modelled.
- The columns customer_id, transaction_date and transaction_amount are always present in the model: `Schema` cannot express a table without them. The steps' guards for a missing column are therefore not modelled: the critical-field loop (python/data_preprocessing.py:169), the key de-duplication pass (:204), the date step (:241), transaction_amount in the money and outlier steps (:265, :313), the derived-feature steps (:347, :368) and the validation checks (:398, :405, :413).
- Ties in `sort_values` keep their group-key order here (a stable sort). pandas' default sort does not promise any tie order.
- The marketing recommendations are a constant dictionary of text with nothing to verify. It has no entries for Promising, Need Attention and About to Sleep.
- The plots and dashboards are not modelled: UI side effects.
- Floating-point error is not modelled. Money and means are exact reals, and `round(2)` acts on the exact value.
