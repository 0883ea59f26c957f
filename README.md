# Regional methylation percentage calculator — Dafny model

`count_methylation_percent.py` reads a bedMethyl file (the per-position
modification table written by modkit), keeps the 5-methylcytosine (`m`) rows
of one chromosome that lie inside a user-given region, and reports how many
reads at those positions are methylated, the overall methylation
percentage, coverage statistics and strand tallies, ending with a
forty-cell text bar.

This project models the core of that script:

- `RegionParser` (`region.dfy`): `parse_region`, which turns the 1-based,
  inclusive `chrom:start-end` argument into `(chrom, start - 1, end)`, and the
  `chrom:start+1-end` text the results use to name a region. It rests on
  `PyText` (`pytext.dfy`): Python's `str.split`, `int(str)` in base 10,
  `str(int)`, `str.strip` and `str * int`.
- `ColumnLayout` (`columns.dfy`): how `read_bedmethyl` names the columns,
  from the number of tab-separated fields on the first data line.
- `RegionMethylation` (`aggregate.dfy`): `calculate_region_methylation` over
  a frame (its column names and its rows). The result dictionary is a
  `Summary`: `Failure` for the dictionary with an `error` key, `Stats` for the
  full one, with the optional `total_other_modifications` key as an
  `Option`. A column the code reads but the frame lacks is a
  `KeyError`. `Statistics` (`statistics.dfy`) holds the reductions it uses:
  sums, the median, numpy's round-half-to-even and `round(x, 2)`.
- `Report` (`bar.dfy`): the bar `print_results` draws.

Floating-point numbers are modelled as exact reals and integers as unbounded
integers. pandas' NaN in `percent_modified` is `None`. Like the pandas sum,
the model skips it.

The model follows the code as written; in particular:

- commas in the region bounds are not removed, so `chr1:1,000-2,000` is refused;
- a region whose end comes before its start (`chr1:200-100`) is not refused;
  it can then select only rows whose own end is at most their own start, so
  nothing from a file whose rows all end after they start;
- a row is inside the region when its own `start` is at least the region's
  start and its own `end` is at most the region's end;
- the bar has `int(40 * pct / 100)` filled cells, truncated and not rounded,
  and it is drawn from the percentage after `round(pct, 2)`.

## Model

| member | source | states |
|---|---|---|
| PyText.Split | count_methylation_percent.py:19-20 | `str.split` gives one piece more than there are separators, no piece holds the separator, and joining the pieces gives the string back |
| PyText.SplitJoin | count_methylation_percent.py:19-20 | splitting a join of separator-free pieces returns exactly those pieces |
| PyText.StripBy | count_methylation_percent.py:48-51 | the stripped text is the infix of the input left after removing whitespace before and after it, and it neither starts nor ends with whitespace |
| PyText.Strip | count_methylation_percent.py:48-51 | `str.strip()` is `StripBy` with the `str.isspace()` set |
| PyText.StripIdempotent | count_methylation_percent.py:48-51 | stripping an already stripped text changes nothing |
| PyText.ParseInt | count_methylation_percent.py:23 | `int()` accepts only signs, digits, underscores and the whitespace it skips (`str.isspace()` without U+001C to U+001F), needs a digit, and gives a non-negative value without a minus sign |
| PyText.ParseIntRejects | count_methylation_percent.py:23 | `int()` refuses any text holding a character that is neither an integer-space character, a sign, a digit nor an underscore |
| PyText.ParseIntRejectsSeparator | count_methylation_percent.py:23 | `int()` refuses any text holding one of U+001C to U+001F |
| PyText.ParseIntRejectsComma | count_methylation_percent.py:23 | `int()` refuses any text that contains a comma |
| PyText.IntText | count_methylation_percent.py:182 | `str(i)` has no colon or comma, and has a minus sign exactly when `i` is negative |
| PyText.DecimalText | count_methylation_percent.py:182 | `str(n)` is digits only, with no leading zero, and spells `n` |
| PyText.ParseIntOfIntText | count_methylation_percent.py:23 | `int(str(i)) == i` for every integer (CPython's limit on the digit count aside, see "## Left out") |
| PyText.Repeat | count_methylation_percent.py:230 | `c * n` is `n` copies of `c`, and empty when `n` is not positive |
| RegionParser.ParseRegion | count_methylation_percent.py:13-25 | any colon count other than one is an `InvalidRegionFormat` error quoting the input; a parsed chromosome is the colon-free text before the colon; the start is at least -1 and the end at least 0 |
| RegionParser.ParseBounds | count_methylation_percent.py:20-23 | the coordinates need exactly one dash, and both bounds read back as non-negative integers |
| RegionParser.ParseRegionOfParts | count_methylation_percent.py:19-23 | `c:a-b` parses exactly when `int()` accepts both `a` and `b`, and then gives `(c, int(a) - 1, int(b))` |
| RegionParser.ParseRegionWrongDashes | count_methylation_percent.py:20 | with one colon, coordinates without exactly one dash are refused |
| RegionParser.ParseRegionOfNumbers | count_methylation_percent.py:19-23 | `c:s-e` with decimal `s` and `e` gives `(c, s - 1, e)`, also when `e < s` |
| RegionParser.RegionLabel | count_methylation_percent.py:182 | the `chrom:start+1-end` text; `ParseRegionOfLabel` proves it parses back to the region |
| RegionParser.ParseRegionOfLabel | count_methylation_percent.py:182 | parsing the `chrom:start+1-end` text of a region gives that region back |
| RegionParser.ParsedRegionRoundTrip | count_methylation_percent.py:13-25 | every region the parser returns survives printing as `chrom:start+1-end` and parsing again |
| RegionParser.ParseRegionRejectsCommas | count_methylation_percent.py:19-25 | comma-grouped bounds are refused |
| RegionParser.ParseRegionCommaExample | count_methylation_percent.py:13-25 | `chr1:1,000-2,000` is refused |
| RegionParser.ParseRegionNoEndExample | count_methylation_percent.py:13-25 | `chr1:100` is refused |
| RegionParser.ParseRegionNoColonExample | count_methylation_percent.py:13-25 | `chr1-100-200` is refused |
| ColumnLayout.NameInjective | count_methylation_percent.py:33-70 | the eighteen column names the script assigns are pairwise distinct, so each column is known by its name |
| ColumnLayout.FieldCount | count_methylation_percent.py:48-52 | the field count is one more than the number of tabs inside the stripped line |
| ColumnLayout.ColumnNames | count_methylation_percent.py:33-73 | the names are the first `min(n, 18)` standard bedMethyl names; `n_modified` is among them exactly when there are at least 12 fields, `n_canonical` exactly when there are at least 13 |
| ColumnLayout.ColumnPresence | count_methylation_percent.py:55-73 | the `k`-th standard name is used exactly when the line has more than `k` fields |
| Statistics.SumOf | count_methylation_percent.py:137-154 | the column sum; `SumOfPermutation`, `SumOfAdd` and the bound lemmas state its properties |
| Statistics.SumOfPermutation | count_methylation_percent.py:137-154 | a column sum does not depend on the order of the rows |
| Statistics.DisjointTallies | count_methylation_percent.py:178-179 | two tallies that never count the same row add up to at most the number of rows |
| Statistics.Sort | count_methylation_percent.py:175 | the sorted values are in ascending order and are a permutation of the input |
| Statistics.Median | count_methylation_percent.py:175 | at least half of the values lie at or below the median and at least half at or above it |
| Statistics.MedianPermutation | count_methylation_percent.py:175 | the median does not depend on the order of the values |
| Statistics.MedianOddExample | count_methylation_percent.py:175 | any arrangement of 10, 20, 30 has median 20 |
| Statistics.MedianEvenExample | count_methylation_percent.py:175 | any arrangement of 10, 20, 30, 40 has median 25, the mean of the two middle values |
| Statistics.RoundHalfEven | count_methylation_percent.py:149 | `round()` gives an integer within one half of its argument, and the even one on a tie |
| Statistics.RoundCents | count_methylation_percent.py:187-189 | `round(x, 2)` lies within half a hundredth of `x` |
| Statistics.RoundCentsBounds | count_methylation_percent.py:187-189 | `round(x, 2)` stays between two whole numbers that bound `x` |
| Statistics.RoundCentsExamples | count_methylation_percent.py:187 | ties go to the even hundredth: 0.125 becomes 0.12, 0.375 becomes 0.38 |
| RegionMethylation.Filter | count_methylation_percent.py:115-122 | the kept rows all pass the test, and each row occurs as often as in the input if it passes, else not at all |
| RegionMethylation.Is5mC | count_methylation_percent.py:115 | the 5mC test; `SelectOne` and `SelectExact` state what it keeps |
| RegionMethylation.InRegion | count_methylation_percent.py:118-122 | the region test on the row's own `start` and `end`; `SelectOne` and `InvertedRegionSelection` state what it keeps |
| RegionMethylation.Select | count_methylation_percent.py:114-122 | no more rows than the input, each one 5mC and inside the region |
| RegionMethylation.InvertedRegionSelection | count_methylation_percent.py:118-122 | with the region's end at or before its start, every selected row ends at or before it starts, so rows that all end after they start give an empty selection |
| RegionMethylation.SelectExact | count_methylation_percent.py:114-122 | the selected rows are exactly the 5mC rows of the chromosome inside the region, with their multiplicities, in file order |
| RegionMethylation.SelectOne | count_methylation_percent.py:114-122 | a single row is kept exactly when its type is `m`, its chromosome matches, its start is at least the region's start and its end at most the region's end |
| RegionMethylation.SelectPermutation | count_methylation_percent.py:114-122 | reordered rows select a reordering of the same rows |
| RegionMethylation.CoveragesPermutation | count_methylation_percent.py:175 | reordered rows give a reordering of the coverage column |
| RegionMethylation.EstimatedModified | count_methylation_percent.py:149 | the estimate is the integer nearest to percent / 100 times coverage, and 0 for a NaN percentage |
| RegionMethylation.EstimatedUnmodified | count_methylation_percent.py:150 | the two estimates of a row add up to its coverage, or to 0 for a NaN percentage |
| RegionMethylation.MeanCoverage | count_methylation_percent.py:174 | the mean times the number of rows is the summed coverage |
| RegionMethylation.PlusStrand | count_methylation_percent.py:178 | 1 for a `+` row; `MinusStrand` and `DisjointTallies` bound the tallies |
| RegionMethylation.MinusStrand | count_methylation_percent.py:179 | 0 or 1, and never 1 on a row the plus tally counts |
| RegionMethylation.NoDataMessage | count_methylation_percent.py:126 | the error text naming the region; `EmptySelection` states when it is returned |
| RegionMethylation.Percent | count_methylation_percent.py:166-170 | with reads, the percentage times the reads is 100 times the modified reads; without reads it is 0; for `0 <= modified <= reads` it is between 0 and 100 |
| RegionMethylation.Summarize | count_methylation_percent.py:166-197 | a missing `strand` column is a `KeyError`; otherwise the positions are the selected rows, plus- and minus-strand tallies add up to at most that, and the other-modifications key is present exactly when its total is positive |
| RegionMethylation.Reduce | count_methylation_percent.py:124-197 | the only error is a missing `strand` once reads can be counted; positions equal the selected rows; every error dictionary has zero totals and a zero percentage; strand tallies never exceed the positions; a reported other-modifications total is positive |
| RegionMethylation.CalculateRegionMethylation | count_methylation_percent.py:100-197 | every `KeyError` names a column the frame lacks, one of `mod_type`, `chrom`, `start`, `end`, `strand`; positions equal the size of the selection; error dictionaries carry zero totals; strand tallies never exceed the positions |
| RegionMethylation.LocationColumns | count_methylation_percent.py:114-122 | the first missing column among `mod_type`, `chrom`, `start`, `end` is the `KeyError`; with all four present the selected rows are reduced |
| RegionMethylation.EmptySelection | count_methylation_percent.py:124-132 | an empty selection gives the "No 5mC data found in region" dictionary with zero totals |
| RegionMethylation.InsufficientColumns | count_methylation_percent.py:156-164 | with rows selected but neither read counts nor percentage and coverage, the result is the "Insufficient data columns" dictionary with the row count |
| RegionMethylation.ReadCountTotals | count_methylation_percent.py:135-145 | with read-count columns, the totals are the sums of `n_modified` and `n_canonical`, the reads their sum, the percentage the rounded modified share, and the other-modifications key present exactly when `n_other_mod` exists and sums above zero |
| RegionMethylation.ReadCountPercentBounds | count_methylation_percent.py:166-170 | non-negative read counts give a percentage between 0 and 100 |
| RegionMethylation.PercentEstimateTotals | count_methylation_percent.py:147-155 | without read counts, the reads are the summed coverage, the two estimates together are the coverage of the rows with a known percentage, and no other modifications are reported |
| RegionMethylation.PercentEstimateBounds | count_methylation_percent.py:147-170 | percentages in 0..100 and non-negative coverage give estimates that never exceed the reads and a percentage between 0 and 100 |
| RegionMethylation.EstimateSums | count_methylation_percent.py:149-154 | with percentages in 0..100 and non-negative coverage, the summed modified estimates lie between 0 and the summed coverage, and the unmodified ones are non-negative |
| RegionMethylation.EstimateBounds | count_methylation_percent.py:149-150 | each per-row estimate lies between 0 and the row's coverage |
| RegionMethylation.CoverageStatisticsBounds | count_methylation_percent.py:174-175 | the mean and median coverage lie between the smallest and largest selected coverage |
| RegionMethylation.NoCoverageColumn | count_methylation_percent.py:174-175 | without a coverage column the mean and median coverage are 0 |
| RegionMethylation.MeanBounds | count_methylation_percent.py:174 | a mean of values between two bounds lies between them |
| RegionMethylation.MedianBounds | count_methylation_percent.py:175 | a median of values between two bounds lies between them |
| RegionMethylation.SummarizeOrderIndependent | count_methylation_percent.py:166-197 | the statistics do not depend on the order of the selected rows |
| RegionMethylation.ReduceOrderIndependent | count_methylation_percent.py:124-197 | the reduction does not depend on the order of the selected rows |
| RegionMethylation.OrderIndependent | count_methylation_percent.py:100-197 | the whole result does not depend on the order of the rows in the file |
| RegionMethylation.LayoutHolds | count_methylation_percent.py:33-73 | a layout has the location columns from 4 fields, `strand` from 6, `coverage` from 10, `percent_modified` from 11, `n_modified` from 12, `n_canonical` from 13, `n_other_mod` from 14 |
| RegionMethylation.ShortLayoutMissesModType | count_methylation_percent.py:115 | a file of fewer than four fields fails with a `KeyError` for `mod_type` |
| RegionMethylation.LayoutBranches | count_methylation_percent.py:135-164 | with rows selected from a file of at least four fields: no `KeyError`; up to 10 fields cannot count reads; 11 or 12 estimate from the percentage; 13 or more sum the read counts |
| Report.TruncateTowardZero | count_methylation_percent.py:229 | `int()` on a number drops its fraction toward zero |
| Report.Filled | count_methylation_percent.py:229 | `int(40 * pct / 100)`; `BarOfPercentage`, `FilledMonotone` and `FilledExamples` state its properties |
| Report.Bar | count_methylation_percent.py:229-230 | the bar is `filled` filled cells then empty cells, with negative repetitions empty |
| Report.BarOfPercentage | count_methylation_percent.py:227-230 | a percentage in 0..100 gives a 40-cell bar whose filled cells are the whole part of `0.4 * pct` |
| Report.FilledMonotone | count_methylation_percent.py:229 | a larger percentage never fills fewer cells |
| Report.FilledExamples | count_methylation_percent.py:229 | 0% fills 0 cells, 50% fills 20, 100% fills 40, and 99.9% is truncated to 39 |
| Report.ResultBar | count_methylation_percent.py:203-230 | a dictionary with an error gets no bar; a full one gets the bar of its rounded percentage |
| Report.ReadCountBarLength | count_methylation_percent.py:226-230 | a result computed from non-negative read counts is drawn as exactly 40 cells |

## Left out

- Reading the file (lines 39-51 and 75-97): opening plain or gzip files, the `#` header check, `pd.read_csv` and its dtype conversions. The model starts from the column names and the already-typed rows. Non-numeric `n_modified` and `n_canonical` values, which the code turns into 0, arrive as integers.
- A line with more than 18 fields, where pandas would use the extra leading fields as an index, is not modelled; `ColumnLayout.ColumnNames` stops at the eighteen names.
- The command line and `main` (lines 240-305), and all printed text except the bar (lines 207-225 and 231), including number formatting with thousands separators.
- Floating-point arithmetic: percentages, means and medians are exact reals. `RegionMethylation.Percent`, `RegionMethylation.EstimatedModified` (its `percent / 100 * coverage` product, rounded half to even), `Statistics.RoundCents` and `Report.Filled` can therefore differ from the script in the last binary digit, and near a rounding or truncation boundary their result can differ from it.
- PyText.ParseInt: accepts ASCII digits only; Python's `int()` also accepts other Unicode decimal digits. It also puts no limit on the number of digits: CPython 3.11 and later refuse a literal longer than `sys.int_max_str_digits` (4300 by default), and `str()` refuses such an integer, so a region with a bound of more than 4300 digits raises in the script but parses here; `PyText.ParseIntOfIntText` and `RegionParser.ParseRegionOfLabel` hold here for every integer for the same reason.
- The columns the script never reads (`score`, `start_dup`, `end_dup`, `color`, `n_delete`, `n_fail`, `n_diff`, `n_nocall`) have no field in a row.
- The per-row estimate columns the percentage branch adds to its frame (line 149-150) are modelled as functions of a row, not as new columns.
- RegionParser.ParseRegion: the error is modelled as carrying the rejected text, not the full message string.
