# Churn-discount simulator and CSV ingester: a Dafny model

This project models two parts of a churn-analytics pipeline.

- **The discount A/B simulator** (`src/ab_simulator.py`). It reads churn predictions and average
  order values, keeps one prediction per customer, and joins the two tables. Then, for every
  targeting share `tp` and discount `d`, it:
  - targets the `ceil(tp·n)` customers with the highest churn probability;
  - treats them with the discount, raising the return probability `p0` to
    `p1 = clip(p0 + β·d·(1 − p0), 0, 1)`;
  - compares expected treated and baseline profit, with return on discount cost (ROI) as NaN when
    the discount cost is not positive.

  It outputs the policy grid sorted by expected profit delta.
- **The CSV ingester's naming and typing rules** (`src/ingest.py`). It turns file names into
  table names and raw headers into column names. It chooses a PostgreSQL type for a column from
  its values, and it decides which files of `data_clean/` it loads, reports missing or ignores.

Floats are modelled as `real`. NaN is the `Stat.NaN` sentinel wherever the program can produce it:
the mean of an empty slice, the ROI at zero cost, and a missing order value after the left join.
Python's `float()` and pandas' `to_numeric`/`to_datetime` are not reimplemented. They are
parameters: `parse` in `Loaders.ParseFloats` and `Parsers` in `Ingest.InferPgType`. Files,
directory listings and database connections are not read. Their contents are inputs: an
`Option<PredsFile>` is `None` when the file does not exist, and a `seq<string>` is the directory
listing.

Modules:

| file | module | models |
|---|---|---|
| `results.dfy` | `Results` | `Option` and `Result` |
| `text.dfy` | `Text` | `str.strip`, ASCII `lower`, `split`/join, Python's code-point string order, `sorted(set(…))` |
| `numeric.dfy` | `Numeric` | clip, ceiling, sum and mean with the NaN-on-empty rule |
| `ordering.dfy` | `Ordering` | descending sort by a key; `DataFrame.head(k)` |
| `loaders.dfy` | `Loaders` | `parse_floats`, `load_preds`, `load_aov`, the left merge on `cust_uid` |
| `simulator.dfy` | `Simulator` | `simulate` without the Monte Carlo loop |
| `scenario.dfy` | `Scenario` | a four-customer run of the simulator worked through to its result row |
| `ingest.dfy` | `Ingest` | `sanitize_table_name`, the column-name rule, `infer_pg_type`, the file selection of `main` |

Details of the code the model follows:

- the order-value fallback applies only when every targeted value is 0 (no NaN remains after
  `fillna(0)`), which includes an empty slice;
- the ROI is NaN exactly when the expected discount cost is `<= 0`;
- `load_preds` reports the set of required columns, not the ones that are absent, while `load_aov`'s
  failure comes from pandas' `usecols` check and names the absent columns;
- an empty target or discount list leaves the result list empty, and sorting the resulting
  column-less frame raises `KeyError`, so the run fails after both files have been read;
- with `--n-mc` at most 0 no trial runs, and `np.percentile` of the empty `deltas` array raises at
  the first grid cell, so a non-empty grid then fails too;
- ties in churn probability at the targeting cut may fall either way, because pandas' default sort
  is not stable, so `TargetSlice` promises only that no customer left out outranks one kept;
- the final ranking by `delta_profit_expectation` uses the same unstable sort, so rows with equal
  expected delta (every zero-discount cell has delta 0) may come out in any order. `Simulate`
  promises only a descending permutation of the grid; the order it picks among equal-delta rows, and
  which `Run` then returns, is the model's choice.

## Model

| member | source | states |
|---|---|---|
| Text.Strip | src/ab_simulator.py:9 | `x.strip()` is empty exactly when `x` is all whitespace; otherwise it is no longer than `x` and neither starts nor ends with whitespace |
| Text.StripIsSlice | src/ab_simulator.py:9 | `x.strip()` is the part of `x` between a whitespace-only prefix and a whitespace-only suffix; with the non-space ends this is exactly `x` without its surrounding whitespace |
| Text.StripUnchanged | src/ingest.py:54 | a value with no surrounding whitespace is unchanged by `strip()` |
| Text.StripIdempotent | src/ingest.py:54 | stripping any string twice gives the same result as stripping it once |
| Text.Split | src/ab_simulator.py:9 | `csv_str.split(",")` returns at least one piece, no piece contains a comma, and joining the pieces with commas gives back the input |
| Text.SplitJoin | src/ab_simulator.py:9 | splitting comma-joined comma-free pieces returns exactly those pieces |
| Text.JoinInjective | src/ab_simulator.py:9 | two lists of comma-free pieces that join to the same string are equal |
| Text.LessIrreflexive | src/ingest.py:146 | Python's string `<` never holds between a string and itself |
| Text.LessTransitive | src/ingest.py:146 | Python's string `<` is transitive |
| Text.LessTotal | src/ingest.py:175 | any two distinct strings are ordered one way or the other, so `sorted` is well defined |
| Text.LessAsymmetric | src/ingest.py:175 | `a < b` rules out `b < a` |
| Text.InsertUnique | src/ingest.py:146 | inserting into a strictly increasing list keeps it strictly increasing and adds exactly the new element |
| Text.SortUnique | src/ingest.py:146 | `sorted(list(set(xs)))` is strictly increasing and holds exactly the elements of `xs` |
| Numeric.Clip | src/ab_simulator.py:60 | `clip(x, lo, hi)` lies in `[lo, hi]`, is `x` when `x` is inside, `lo` below and `hi` above |
| Numeric.Ceil | src/ab_simulator.py:51 | `ceil(x)` is the least integer not below `x` |
| Numeric.Mean | src/ab_simulator.py:84-86 | `mean` is NaN exactly for an empty array |
| Numeric.SumDiff | src/ab_simulator.py:62-64 | the sum of termwise differences is the difference of the sums |
| Numeric.SumBounds | src/ab_simulator.py:62 | a sum of `n` terms in `[lo, hi]` lies in `[n·lo, n·hi]` |
| Numeric.SumNonNegative | src/ab_simulator.py:66 | a sum of non-negative terms is non-negative |
| Numeric.MeanBounds | src/ab_simulator.py:85-86 | the mean of a non-empty array of values in `[lo, hi]` lies in `[lo, hi]` |
| Numeric.MeanNonNegative | src/ab_simulator.py:69 | the mean of a non-empty array of non-negative values is non-negative |
| Numeric.MeanDiff | src/ab_simulator.py:69 | `mean(p1 - p0)` equals `mean(p1) - mean(p0)` for non-empty arrays of equal length |
| Ordering.InsertDesc | src/ab_simulator.py:52 | inserting into a list sorted by descending key keeps it sorted and adds exactly one copy of the element |
| Ordering.SortDesc | src/ab_simulator.py:95 | `sort_values(ascending=False)` returns a permutation of its input sorted by descending key |
| Ordering.HeadCount | src/ab_simulator.py:52 | `head(k)` keeps `min(k, n)` rows for `k >= 0` and drops the last `-k` rows for `k < 0`, keeping none once `-k >= n` |
| Loaders.NonBlank | src/ab_simulator.py:9 | the pieces kept by `if x.strip() != ""` are exactly the non-blank ones |
| Loaders.NonBlankAppend | src/ab_simulator.py:9 | the blank filter keeps order and repeats: filtering a concatenation concatenates the filtered parts |
| Loaders.NonBlankSingle | src/ab_simulator.py:9 | a single piece is kept exactly when it is not blank |
| Loaders.ParseFloats | src/ab_simulator.py:7-11 | the list parses exactly when every non-blank piece parses, and then holds their values in order; otherwise the error names the argument and the raw string |
| Loaders.ParseFloatsOfJoin | src/ab_simulator.py:7-11 | comma-joining non-blank numerals and parsing the result gives back their values |
| Loaders.ParseFloatsBlank | src/ab_simulator.py:9 | a string of only commas and whitespace parses to the empty list |
| Loaders.NonBlankKeepsAll | src/ab_simulator.py:9 | a list with no blank pieces passes the blank filter unchanged |
| Loaders.NonBlankDropsAll | src/ab_simulator.py:9 | a list of only blank pieces is filtered to empty |
| Loaders.InsertMax | src/ab_simulator.py:20 | adding a row to a uid-increasing table keeps it uid-increasing and adds the row's uid to the uid set, taking only rows from the table or the new row |
| Loaders.Dedup | src/ab_simulator.py:20 | the result has one row per customer, in increasing uid order, every row taken from the input, the same customers as the input, and for each customer the highest churn probability |
| Loaders.LoadPreds | src/ab_simulator.py:13-21 | a missing file is an error naming the path; missing columns are an error naming the required set; otherwise the rows are deduplicated as `Dedup` states |
| Loaders.LoadPredsOnePerCustomer | src/ab_simulator.py:20-21 | two distinct rows of the loaded predictions never share a uid; each is a row of the file and carries the highest churn probability the file gives its customer |
| Loaders.LoadAov | src/ab_simulator.py:23-28 | a missing snapshot gives an empty table; a snapshot lacking a column fails with an error naming exactly the absent columns; otherwise the rows are kept in order with null order values read as 0 |
| Loaders.MergeRow | src/ab_simulator.py:117 | a prediction with no snapshot row yields one row with a NaN order value; otherwise it yields one row per matching snapshot row, in snapshot order, carrying that row's order value; every row keeps the prediction's uid and probability |
| Loaders.MergeLeft | src/ab_simulator.py:117 | the merged frame has at least as many rows as the predictions |
| Loaders.MergeLeftAppend | src/ab_simulator.py:117 | the merge works prediction by prediction in prediction order: merging a concatenation concatenates the merges |
| Loaders.MergeLeftSingle | src/ab_simulator.py:117 | one prediction merges to exactly its `MergeRow` rows |
| Loaders.MergeLeftKeeps | src/ab_simulator.py:117 | every prediction row's customer and churn probability appear in the merged frame |
| Loaders.MergeLeftUnique | src/ab_simulator.py:117 | with at most one snapshot row per uid, the merge is one-to-one and in order: each prediction gains its customer's order value, or NaN when there is none |
| Simulator.BaselineReturn | src/ab_simulator.py:46 | `p0` is `1 - churn_prob` clipped to `[1e-6, 1 - 1e-6]` |
| Simulator.Prepare | src/ab_simulator.py:45-47 | each customer keeps its churn probability, gains as `p0` its clipped baseline return `BaselineReturn(churn_prob)`, which lies in `[1e-6, 1 - 1e-6]`, and has a NaN order value replaced by 0 |
| Simulator.TargetCount | src/ab_simulator.py:50-51 | `k = ceil(tp·n)`; it is non-negative for non-negative `tp`, and between 1 and `n` for `0 < tp <= 1` and `n > 0` |
| Simulator.TargetCountExamples | src/ab_simulator.py:51 | 25% of 1000 targets 250, half of 3 targets 2, 10% of 30 targets 3 |
| Simulator.Ranked | src/ab_simulator.py:52 | ranking is a permutation of the customers by descending churn probability |
| Simulator.CutSorted | src/ab_simulator.py:52 | cutting a ranked list splits its customers, and every customer before the cut has churn probability at least that of every customer after it |
| Simulator.TargetSlice | src/ab_simulator.py:49-52 | the targeted set has `head(k)` size, is a sub-multiset of the customers, and no customer left out has a higher churn probability than one targeted |
| Simulator.Fallback | src/ab_simulator.py:56-57 | if every targeted order value is 0 each becomes 100.0; if any is non-zero the values are kept |
| Simulator.Treat | src/ab_simulator.py:60 | `p1` lies in `[0, 1]`, is never below `p0` for a non-negative effect, equals `p0` at zero effect, and is the unclipped formula whenever that lies in `[0, 1]`, 1 when it lies above, and 0 when it lies below |
| Simulator.TreatAll | src/ab_simulator.py:60 | `p1` is computed customer by customer |
| Simulator.Expect | src/ab_simulator.py:62-67 | baseline profit is the sum of `p0·aov·margin`, the discount cost the sum of `p1·aov·d`; delta is treated minus baseline expected profit; ROI is NaN exactly when the discount cost is not positive, and otherwise is delta over cost |
| Simulator.TermsAdd | src/ab_simulator.py:63-66 | the per-customer sums are linear in the per-purchase rate |
| Simulator.ExpectSplitsRevenue | src/ab_simulator.py:63-66 | treated profit plus discount cost is the treated revenue at the full margin, which pins the treated profit |
| Simulator.TrialDelta | src/ab_simulator.py:75 | one trial's delta is the treated realised profit at `margin - d` minus the baseline realised profit at `margin` |
| Simulator.ExpectedDeltaIsTrialDeltaAtProbabilities | src/ab_simulator.py:62-75 | the expected delta is the Monte Carlo per-trial delta with the Bernoulli draws replaced by their probabilities |
| Simulator.ZeroDiscount | src/ab_simulator.py:60-67 | with no discount the treatment changes nothing, the expected delta is 0 and the ROI is NaN |
| Simulator.RoiSentinelAtZeroCost | src/ab_simulator.py:66-67 | with non-negative discount and order values, the cost is non-negative and the ROI is NaN exactly when the cost is 0 |
| Simulator.CellRow | src/ab_simulator.py:59-93 | a result row carries `tp`, `d` and `k`, the means of order value and `p0`, and `avg_p1` as the mean of the treated probabilities; `p1` and lift are NaN exactly when nothing is targeted; lift is `avg_p1 - avg_p0`, non-negative for a non-negative effect; with no discount the delta is 0 and the ROI NaN |
| Simulator.TargetRows | src/ab_simulator.py:49-59 | one row per discount, in discount order, each reporting the target share and `ceil(tp·n)`, all sharing one average order value |
| Simulator.TargetRowsCell | src/ab_simulator.py:52-60 | row `j` of a targeting share is the cell computed from the targeted set's `p0`s, its fallback-adjusted order values and discount `j` |
| Simulator.Sweep | src/ab_simulator.py:49-59 | the grid has one row per (target, discount) pair |
| Ordering.FlattenLayout | src/ab_simulator.py:49-59 | in rows appended by a nested loop over `T` outer and `D` inner steps, row `j` of block `i` is at position `i·D + j` |
| Simulator.SweepLayout | src/ab_simulator.py:49-59 | the row for target `i` and discount `j` is at position `i·D + j` of the loop's output |
| Simulator.Simulate | src/ab_simulator.py:30-96 | with no target or no discount the final sort fails; otherwise a non-positive `n_mc` fails at the first cell's percentile; otherwise the result is the full grid, as a permutation, sorted by descending expected profit delta |
| Simulator.SimulateCoversGrid | src/ab_simulator.py:49-96 | a non-empty grid with at least one trial is simulated, and every (target, discount) pair's row appears in the sorted result |
| Simulator.Run | src/ab_simulator.py:111-118 | errors surface in program order: a bad target list, then a bad discount list, then the predictions file, then the snapshot file, then an empty grid at the final sort, then a non-positive `--n-mc` at the first cell; the run succeeds exactly when all four steps succeed, both lists are non-empty and `--n-mc` is at least 1, and it then yields exactly the simulation of the predictions left-merged with the snapshot: one row per grid cell, ranked by descending expected delta |
| Simulator.RunWithoutSnapshot | src/ab_simulator.py:23-28 | a missing snapshot file does not stop the run, which then succeeds exactly when both lists are non-empty and `--n-mc` is at least 1: its rows are the simulation of every predicted customer, kept in order, with a missing order value |
| Simulator.RunBlankTargets | src/ab_simulator.py:95 | a target list of only commas and whitespace parses, yet the run then fails at the final sort |
| Scenario.WorkedExample | src/ab_simulator.py:45-67 | for four customers, targeting half selects the two with churn 0.9 and 0.5, keeps their order values 50 and 0, and treats `p0` 0.1 and 0.5 to 0.145 and 0.525 |
| Scenario.ExpectExample | src/ab_simulator.py:62-67 | in that example, baseline profit 1.25, treated 1.0875, delta -0.1625, cost 0.725, ROI about -0.2241 |
| Scenario.WorkedExampleRow | src/ab_simulator.py:30-96 | the simulator's one row for that example has `n_target` 2, average order value 25 and delta -0.1625 |
| Ingest.TableChar | src/ingest.py:86 | every character becomes one of `[a-z0-9_]` |
| Ingest.DropCsvSuffix | src/ingest.py:85 | removing `\.csv$` shortens the name by 4 exactly when it ends in `.csv` in any case, possibly followed by one newline |
| Ingest.SanitizeTableName | src/ingest.py:84-86 | the table name uses only `[a-z0-9_]` and has no `.`; it is 4 shorter than the file name exactly when a `.csv` suffix was removed; each kept character is the lower-cased original or `_` |
| Ingest.SanitizeIdentName | src/ingest.py:84-86 | a name already in `[a-z0-9_]` is its own table name |
| Ingest.SanitizeTableNameIdempotent | src/ingest.py:84-86 | sanitising a table name again changes nothing |
| Ingest.SafeColumn | src/ingest.py:125 | a column name keeps its length and uses only `[a-z0-9_]`: each character in `[a-zA-Z0-9_]` is lower-cased and every other character becomes `_` |
| Ingest.SafeColumnMatchesTableName | src/ingest.py:84-86 | without a `.csv` suffix the column rule and the table rule give the same name |
| Ingest.NonNull | src/ingest.py:45 | `dropna()` keeps exactly the non-null values |
| Ingest.NonNullAppend | src/ingest.py:45 | `dropna()` keeps order and repeats: dropping from a concatenation concatenates the dropped parts |
| Ingest.NonNullSingle | src/ingest.py:45 | one null cell is dropped, one present cell kept |
| Ingest.StripAll | src/ingest.py:54 | `vals` holds, position by position, the stripped sample values |
| Ingest.NonEmpty | src/ingest.py:55 | keeps exactly the non-empty strings |
| Ingest.NonEmptyAppend | src/ingest.py:55 | the filter keeps order and repeats: filtering a concatenation concatenates the filtered parts |
| Ingest.NonEmptySingle | src/ingest.py:55 | one string is kept exactly when it is non-empty |
| Ingest.NonBlankValues | src/ingest.py:54-55 | `vals_nb` is exactly the non-empty stripped values |
| Ingest.NonBlankValuesAppend | src/ingest.py:54-55 | `vals_nb` is built value by value in sample order, keeping repeats |
| Ingest.NonBlankValuesSingle | src/ingest.py:54-55 | one value contributes its stripped form unless it is blank |
| Ingest.IsBoolColumnLows | src/ingest.py:56-58 | the BOOLEAN test holds exactly when the set of lower-cased values lies within the tokens and either the sample is non-empty or the name hints a flag |
| Ingest.LooksDecimalAt | src/ingest.py:62 | the decimal look holds exactly when one of the first 2000 non-blank values contains `.`, `e` or `E` |
| Ingest.InferPgType | src/ingest.py:44-82 | an all-null column is TEXT; an override wins for any other column; BOOLEAN exactly when the override says so or, without one, the BOOLEAN test passes; then BIGINT exactly when numbers parse, look integral, and no raw value has `.`/`e`; NUMERIC(18,6) when numbers parse with a decimal look or a non-integral value; TIMESTAMP exactly when numbers fail, a date hint appears in the first 50 values, and dates parse; TEXT when numbers fail and no date is recognised |
| Ingest.ValueType | src/ingest.py:61-82 | after the BOOLEAN test: BIGINT, NUMERIC(18,6), TIMESTAMP and TEXT each exactly under its condition, never BOOLEAN |
| Ingest.ZeroOneIsBoolean | src/ingest.py:53-59 | a non-empty column of 0/1 values without an override is BOOLEAN, never BIGINT |
| Ingest.EmptyColumnIsText | src/ingest.py:45-51 | an all-null column is TEXT whatever its name, even one with an override |
| Ingest.BlankFlagColumnIsBoolean | src/ingest.py:54-59 | a column whose values are all blank is BOOLEAN when its name has no override and hints a flag |
| Ingest.FilterCsv | src/ingest.py:143 | keeps exactly the listed names ending in `.csv` in any case |
| Ingest.FilterCsvAppend | src/ingest.py:143 | the CSV filter keeps listing order and repeats |
| Ingest.FilterCsvSingle | src/ingest.py:143 | one name is kept exactly when it ends in `.csv` in any case |
| Ingest.FilterWhitelisted | src/ingest.py:144 | keeps exactly the CSVs whose lower-cased name is whitelisted |
| Ingest.FilterWhitelistedAppend | src/ingest.py:144 | `files`, and so the load order, follows the listing order |
| Ingest.FilterWhitelistedSingle | src/ingest.py:144 | one CSV is kept exactly when its lower-cased name is whitelisted |
| Ingest.Absent | src/ingest.py:146 | holds exactly the whitelist entries that no listed CSV lower-cases to |
| Ingest.Exclude | src/ingest.py:175 | holds exactly the CSVs that are not loaded |
| Ingest.SelectFiles | src/ingest.py:143-146 | the CSV list and the load list are exactly the listed names passing each filter; `missing` is sorted and holds exactly the whitelisted names no CSV matches; `ignored` is sorted and holds exactly the CSVs not loaded |
| Ingest.WhitelistedAreCsv | src/ingest.py:143-144 | every name the whitelist matches also passes the `.csv` filter |
| Ingest.WhitelistedTableName | src/ingest.py:144-161 | a file whose lower-cased name is whitelisted, which is exactly a file `files` loads, gets as its table the lower-cased name without `.csv` |
| Ingest.PlanIngest | src/ingest.py:140-157 | a missing data directory aborts; an empty load list aborts exactly when no listed name is whitelisted; otherwise the selection is used |

## Left out

- The Monte Carlo loop (`src/ab_simulator.py:71-78`) and the columns it fills (`delta_profit_mc_mean`, `delta_profit_ci_lo`, `delta_profit_ci_hi`) are not modelled, and neither is `seed`; `n_mc` enters only through the failure when it is at most 0. The loop and columns need a random number generator and percentiles of floats. `Simulator.ExpectedDeltaIsTrialDeltaAtProbabilities` relates one trial's formula to the expectation instead.
- IEEE-754 rounding is not modelled. In particular `np.ceil(0.1 * 30)` is taken as 3.0, and a product that rounds just above an integer is not modelled.
- NaN or infinite inputs are not modelled: a churn probability, a `targets`/`discounts` entry, or a value `float()` accepts as `"nan"`/`"inf"`. Their effects on sorting, clipping, `int(np.ceil(...))` and the integrality test `% 1 == 0` are therefore absent too.
- Loaders.LoadPreds: a churn probability that is NaN in the file, which pandas sorts last and may keep, is not modelled; the probabilities are reals.
- Loaders.MergeLeft: its own contract states only a row-count bound. The merge is characterised by `MergeRow`, `MergeLeftAppend` and `MergeLeftSingle` together, and row by row under a one-row-per-uid snapshot (`MergeLeftUnique`).
- `cust_uid` is a string throughout. pandas may read it as a number, which changes sort order; that dtype inference is not modelled.
- Reading CSV files (`pd.read_csv`, `usecols`), and whether a path exists, are inputs. The text of pandas' `usecols` error is modelled only as the set of absent columns. So is the dtype pandas infers for each column. `infer_pg_type` receives the `str(v)` form of each non-null cell.
- `pd.to_numeric` and `pd.to_datetime` are the `Parsers` oracle, not reimplemented.
- Lower-casing is ASCII only. Python's `str.lower` also maps a few non-ASCII characters to ASCII: the Kelvin sign becomes `k`, and `İ` becomes `i` plus a combining dot, which lengthens the name. Under `re.I`, `\.csv$` also matches `ſ` (long s) for `s`. Names containing these characters are not modelled; `SafeColumn` is exact because it substitutes before lower-casing.
- Database work is not modelled: `ensure_schemas`, `table_exists`, `table_has_rows`, `create_table`'s SQL, `copy_csv`, connections and commits. The load loop's skip of already-filled tables is not modelled either. `PlanIngest` keeps the order of the two aborts but not the schema creation between them.
- Argument parsing, printing and writing the result CSV are not modelled, in both `main` functions.
- The checks run before `ingest.main` (`src/ingest.py:182-185`) are not modelled.
- `db.py` and the exporter scripts are not part of this model.
