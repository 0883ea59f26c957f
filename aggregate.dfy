/**
 * `calculate_region_methylation`: keep the 5mC rows of one chromosome that lie
 * inside the region, and reduce them to region-wide read counts, an overall
 * methylation percentage, coverage statistics and strand tallies.
 */
module RegionMethylation {
  import opened Wrappers
  import opened Statistics
  import opened RegionParser
  import opened ColumnLayout

  /**
   * One row of the bedMethyl table. A field whose column is not in the
   * frame's layout is never read. `percentModified` is `None` where pandas
   * holds NaN.
   */
  datatype Record = Record(
    chrom: string,
    start: int,
    end: int,
    modType: string,
    strand: string,
    coverage: int,
    percentModified: Option<real>,
    nModified: int,
    nCanonical: int,
    nOtherMod: int)

  /** The data frame: the names of its columns and its rows, in file order. */
  datatype Frame = Frame(columns: seq<Column>, rows: seq<Record>)

  /** The `KeyError` pandas raises when a column the code reads is missing. */
  datatype ColumnError = KeyError(column: Column)

  /**
   * The result dictionary. `Failure` is the dictionary with an `error` key;
   * `Stats` the full one, where `otherModifications` is the optional
   * `total_other_modifications` key.
   */
  datatype Summary =
    | Failure(
        error: string,
        totalPositions: nat,
        totalModifiedReads: int,
        totalUnmodifiedReads: int,
        totalReads: int,
        overallMethylationPercent: real)
    | Stats(
        region: string,
        totalPositions: nat,
        totalModifiedReads: int,
        totalUnmodifiedReads: int,
        totalReads: int,
        overallMethylationPercent: real,
        meanCoverage: real,
        medianCoverage: real,
        plusStrandPositions: nat,
        minusStrandPositions: nat,
        otherModifications: Option<int>)

  /** The error text for a frame that has neither read counts nor percentage and coverage. */
  const InsufficientColumnsMessage: string := "Insufficient data columns to calculate methylation"

  /** The error text for a region where nothing is selected. */
  function NoDataMessage(regionText: string): string {
    "No 5mC data found in region " + regionText
  }

  /** The rows of `rows` that pass `keep`, in their original order. */
  function Filter(rows: seq<Record>, keep: Record -> bool): (kept: seq<Record>)
    ensures |kept| <= |rows|
    ensures forall i :: 0 <= i < |kept| ==> keep(kept[i])
    ensures forall r :: multiset(kept)[r] == if keep(r) then multiset(rows)[r] else 0
  {
    if rows == [] then []
    else
      var rest := Filter(rows[1..], keep);
      assert rows == [rows[0]] + rows[1..];
      if keep(rows[0]) then [rows[0]] + rest else rest
  }

  /** Filtering a concatenation filters each part. */
  lemma {:induction false} FilterAppend(a: seq<Record>, b: seq<Record>, keep: Record -> bool)
    ensures Filter(a + b, keep) == Filter(a, keep) + Filter(b, keep)
  {
    if a == [] {
      assert a + b == b;
    } else {
      assert (a + b)[1..] == a[1..] + b;
      FilterAppend(a[1..], b, keep);
    }
  }

  /** The 5mC test: modification code `m`. */
  predicate Is5mC(r: Record) {
    r.modType == "m"
  }

  /** The region test on the record's own start and end columns. */
  predicate InRegion(r: Record, chrom: string, start: int, end: int) {
    r.chrom == chrom && r.start >= start && r.end <= end
  }

  function RegionTest(chrom: string, start: int, end: int): Record -> bool {
    r => InRegion(r, chrom, start, end)
  }

  /** The rows `calculate_region_methylation` works on: 5mC rows first, then the region. */
  function Select(rows: seq<Record>, chrom: string, start: int, end: int): (sel: seq<Record>)
    ensures |sel| <= |rows|
    ensures forall i :: 0 <= i < |sel| ==> Is5mC(sel[i]) && InRegion(sel[i], chrom, start, end)
  {
    var only5mC := Filter(rows, Is5mC);
    var sel := Filter(only5mC, RegionTest(chrom, start, end));
    assert forall i :: 0 <= i < |sel| ==> sel[i] in multiset(only5mC);
    sel
  }

  /**
   * The selection keeps every row that is 5mC and inside the region, as many
   * times as it occurs, drops every other row, and keeps the file order.
   */
  lemma {:induction false} SelectExact(a: seq<Record>, b: seq<Record>, chrom: string, start: int, end: int)
    ensures forall r ::
      multiset(Select(a, chrom, start, end))[r] == (if Is5mC(r) && InRegion(r, chrom, start, end) then multiset(a)[r] else 0)
    ensures Select(a + b, chrom, start, end) == Select(a, chrom, start, end) + Select(b, chrom, start, end)
  {
    var test := RegionTest(chrom, start, end);
    FilterAppend(a, b, Is5mC);
    FilterAppend(Filter(a, Is5mC), Filter(b, Is5mC), test);
  }

  /**
   * A region whose end lies at or before its start, such as the one
   * `chr1:200-100` gives, is accepted, but it can only select rows whose own
   * end lies at or before their own start.
   */
  lemma {:induction false} InvertedRegionSelection(rows: seq<Record>, chrom: string, start: int, end: int)
    requires end <= start
    ensures forall i :: 0 <= i < |Select(rows, chrom, start, end)| ==>
      Select(rows, chrom, start, end)[i].end <= Select(rows, chrom, start, end)[i].start
    ensures (forall i :: 0 <= i < |rows| ==> rows[i].start < rows[i].end) ==> Select(rows, chrom, start, end) == []
  {
    var sel := Select(rows, chrom, start, end);
    if sel != [] && forall i :: 0 <= i < |rows| ==> rows[i].start < rows[i].end {
      SelectExact(rows, [], chrom, start, end);
    }
  }

  /** A single row is kept exactly when it is 5mC and inside the region. */
  lemma SelectOne(r: Record, chrom: string, start: int, end: int)
    ensures Select([r], chrom, start, end) == if Is5mC(r) && InRegion(r, chrom, start, end) then [r] else []
  {
    assert [r][1..] == [];
  }

  // The per-row quantities the sums range over.

  function ModifiedReads(r: Record): int {
    r.nModified
  }

  function CanonicalReads(r: Record): int {
    r.nCanonical
  }

  function OtherModReads(r: Record): int {
    r.nOtherMod
  }

  function Coverage(r: Record): int {
    r.coverage
  }

  /**
   * `n_modified_calc`: percent / 100 * coverage, rounded half to even. A NaN
   * percentage gives NaN, which the sum skips; it counts as 0 here.
   */
  function EstimatedModified(r: Record): (e: int)
    ensures r.percentModified.None? ==> e == 0
    ensures r.percentModified.Some? ==>
      var x := r.percentModified.value / 100.0 * r.coverage as real;
      e as real - 0.5 <= x <= e as real + 0.5
  {
    match r.percentModified
    case Some(p) => RoundHalfEven(p / 100.0 * r.coverage as real)
    case None => 0
  }

  /** `n_unmodified_calc`: coverage minus the estimate; NaN where the estimate is. */
  function EstimatedUnmodified(r: Record): (u: int)
    ensures EstimatedModified(r) + u == KnownCoverage(r)
  {
    match r.percentModified
    case Some(_) => r.coverage - EstimatedModified(r)
    case None => 0
  }

  /** The coverage of a row whose percentage is known, else 0. */
  function KnownCoverage(r: Record): int {
    if r.percentModified.Some? then r.coverage else 0
  }

  function PlusStrand(r: Record): int {
    if r.strand == "+" then 1 else 0
  }

  function MinusStrand(r: Record): (n: int)
    ensures 0 <= n && 0 <= PlusStrand(r) && n + PlusStrand(r) <= 1
  {
    if r.strand == "-" then 1 else 0
  }

  /** The coverage column of `rows`, in order. */
  function Coverages(rows: seq<Record>): (c: seq<int>)
    ensures |c| == |rows|
    ensures forall i :: 0 <= i < |rows| ==> c[i] == rows[i].coverage
  {
    if rows == [] then [] else [rows[0].coverage] + Coverages(rows[1..])
  }

  /** 1 for a row whose coverage is `v`, else 0. */
  function CoverageIs(v: int): Record -> int {
    (r: Record) => if r.coverage == v then 1 else 0
  }

  /** How often a value occurs in the coverage column. */
  lemma {:induction false} CoveragesCount(rows: seq<Record>, v: int)
    ensures multiset(Coverages(rows))[v] == SumOf(rows, CoverageIs(v))
  {
    if rows != [] {
      CoveragesCount(rows[1..], v);
      assert Coverages(rows) == [rows[0].coverage] + Coverages(rows[1..]);
    }
  }

  /** Reordering the rows reorders the coverage column the same way. */
  lemma CoveragesPermutation(a: seq<Record>, b: seq<Record>)
    requires multiset(a) == multiset(b)
    ensures multiset(Coverages(a)) == multiset(Coverages(b))
  {
    forall v
      ensures multiset(Coverages(a))[v] == multiset(Coverages(b))[v]
    {
      CoveragesCount(a, v);
      CoveragesCount(b, v);
      SumOfPermutation(a, b, CoverageIs(v));
    }
  }

  /**
   * `(total_modified / total_reads) * 100`, and 0 when there are no reads.
   * With counts that cannot be negative it is a percentage.
   */
  function Percent(modified: int, total: int): (p: real)
    ensures total > 0 ==> p * total as real == 100.0 * modified as real
    ensures total <= 0 ==> p == 0.0
    ensures 0 <= modified <= total ==> 0.0 <= p <= 100.0
  {
    if total > 0 then (modified as real / total as real) * 100.0 else 0.0
  }

  /** `mean()` of the selected coverages. */
  function MeanCoverage(sel: seq<Record>): (m: real)
    requires sel != []
    ensures m * |sel| as real == SumOf(sel, Coverage) as real
  {
    SumOf(sel, Coverage) as real / |sel| as real
  }

  /**
   * The dictionary for a non-empty selection once the three totals are known:
   * percentage, coverage statistics (0 without a coverage column), strand
   * tallies, and the other-modifications key only when its total is positive.
   */
  function Summarize(columns: seq<Column>, sel: seq<Record>, regionText: string,
                     modified: int, unmodified: int, total: int, other: int): (out: Result<Summary, ColumnError>)
    requires sel != []
    ensures out.Err? <==> Strand !in columns
    ensures out.Err? ==> out.error == KeyError(Strand)
    ensures out.Ok? ==> out.value.Stats? && out.value.totalPositions == |sel|
    ensures out.Ok? ==> out.value.plusStrandPositions + out.value.minusStrandPositions <= |sel|
    ensures out.Ok? ==> (out.value.otherModifications.Some? <==> other > 0)
  {
    if Strand !in columns then Err(KeyError(Strand))
    else
      DisjointTallies(sel, PlusStrand, MinusStrand);
      var hasCoverage := CoverageColumn in columns;
      Ok(Stats(
        regionText,
        |sel|,
        modified,
        unmodified,
        total,
        RoundCents(Percent(modified, total)),
        RoundCents(if hasCoverage then MeanCoverage(sel) else 0.0),
        RoundCents(if hasCoverage then Median(Coverages(sel)) else 0.0),
        SumOf(sel, PlusStrand),
        SumOf(sel, MinusStrand),
        if other > 0 then Some(other) else None))
  }

  /**
   * The whole computation. A column the code reads but the frame lacks gives
   * `KeyError`; the location columns are read first, by the two filters.
   */
  function CalculateRegionMethylation(df: Frame, chrom: string, start: int, end: int): (out: Result<Summary, ColumnError>)
    ensures out.Err? ==> out.error.column !in df.columns
    ensures out.Err? ==> out.error.column in [ModType, Chrom, Start, End, Strand]
    ensures out.Ok? ==> out.value.totalPositions == |Select(df.rows, chrom, start, end)|
    ensures out.Ok? && out.value.Failure? ==>
      && out.value.totalModifiedReads == 0
      && out.value.totalUnmodifiedReads == 0
      && out.value.totalReads == 0
      && out.value.overallMethylationPercent == 0.0
    ensures out.Ok? && out.value.Stats? ==>
      && out.value.totalPositions > 0
      && out.value.plusStrandPositions + out.value.minusStrandPositions <= out.value.totalPositions
    ensures out.Ok? && out.value.Stats? && out.value.otherModifications.Some? ==>
      out.value.otherModifications.value > 0
  {
    if ModType !in df.columns then Err(KeyError(ModType))
    else if Chrom !in df.columns then Err(KeyError(Chrom))
    else if Start !in df.columns then Err(KeyError(Start))
    else if End !in df.columns then Err(KeyError(End))
    else Reduce(df.columns, Select(df.rows, chrom, start, end), RegionLabel(chrom, start, end))
  }

  /**
   * The reduction of the selected rows: the error dictionary for an empty
   * selection, and for a frame with neither read counts nor percentage and
   * coverage; otherwise the statistics from whichever columns are there.
   */
  function Reduce(columns: seq<Column>, sel: seq<Record>, regionText: string): (out: Result<Summary, ColumnError>)
    ensures out.Err? <==> sel != [] && Strand !in columns
                          && ((NModified in columns && NCanonical in columns)
                              || (PercentModified in columns && CoverageColumn in columns))
    ensures out.Err? ==> out.error == KeyError(Strand)
    ensures out.Ok? ==> out.value.totalPositions == |sel|
    ensures out.Ok? && out.value.Failure? ==>
      && out.value.totalModifiedReads == 0
      && out.value.totalUnmodifiedReads == 0
      && out.value.totalReads == 0
      && out.value.overallMethylationPercent == 0.0
    ensures out.Ok? && out.value.Stats? ==>
      && sel != []
      && out.value.plusStrandPositions + out.value.minusStrandPositions <= |sel|
    ensures out.Ok? && out.value.Stats? && out.value.otherModifications.Some? ==>
      out.value.otherModifications.value > 0
  {
    if |sel| == 0 then
      Ok(Failure(NoDataMessage(regionText), 0, 0, 0, 0, 0.0))
    else if NModified in columns && NCanonical in columns then
      var modified := SumOf(sel, ModifiedReads);
      var unmodified := SumOf(sel, CanonicalReads);
      var other := if NOtherMod in columns then SumOf(sel, OtherModReads) else 0;
      Summarize(columns, sel, regionText, modified, unmodified, modified + unmodified, other)
    else if PercentModified in columns && CoverageColumn in columns then
      Summarize(columns, sel, regionText,
        SumOf(sel, EstimatedModified), SumOf(sel, EstimatedUnmodified), SumOf(sel, Coverage), 0)
    else
      Ok(Failure(InsufficientColumnsMessage, |sel|, 0, 0, 0, 0.0))
  }

  /** The columns every frame needs before anything is selected. */
  predicate HasLocation(columns: seq<Column>) {
    ModType in columns && Chrom in columns && Start in columns && End in columns
  }

  /**
   * A frame missing a location column fails on the first of `mod_type`,
   * `chrom`, `start` and `end` it lacks; a frame with all four reduces the
   * selection of its rows.
   */
  lemma LocationColumns(df: Frame, chrom: string, start: int, end: int)
    ensures ModType !in df.columns ==> CalculateRegionMethylation(df, chrom, start, end) == Err(KeyError(ModType))
    ensures ModType in df.columns && Chrom !in df.columns ==>
      CalculateRegionMethylation(df, chrom, start, end) == Err(KeyError(Chrom))
    ensures ModType in df.columns && Chrom in df.columns && Start !in df.columns ==>
      CalculateRegionMethylation(df, chrom, start, end) == Err(KeyError(Start))
    ensures ModType in df.columns && Chrom in df.columns && Start in df.columns && End !in df.columns ==>
      CalculateRegionMethylation(df, chrom, start, end) == Err(KeyError(End))
    ensures HasLocation(df.columns) ==>
      CalculateRegionMethylation(df, chrom, start, end) == Reduce(df.columns, Select(df.rows, chrom, start, end), RegionLabel(chrom, start, end))
  {
  }

  /** Nothing selected: the error dictionary naming the region, with zero totals. */
  lemma EmptySelection(columns: seq<Column>, regionText: string)
    ensures Reduce(columns, [], regionText) == Ok(Failure(NoDataMessage(regionText), 0, 0, 0, 0, 0.0))
  {
  }

  /** Rows selected but no way to count reads: the error dictionary with the row count. */
  lemma InsufficientColumns(columns: seq<Column>, sel: seq<Record>, regionText: string)
    requires sel != []
    requires NModified !in columns || NCanonical !in columns
    requires PercentModified !in columns || CoverageColumn !in columns
    ensures Reduce(columns, sel, regionText) == Ok(Failure(InsufficientColumnsMessage, |sel|, 0, 0, 0, 0.0))
  {
  }

  /**
   * With read-count columns, the totals are the sums of `n_modified` and
   * `n_canonical` over the selection, the reads are their sum, the
   * percentage is the modified share of the reads, and the other
   * modifications are reported exactly when `n_other_mod` is there and sums
   * to a positive number.
   */
  lemma ReadCountTotals(columns: seq<Column>, sel: seq<Record>, regionText: string)
    requires Strand in columns && NModified in columns && NCanonical in columns
    requires sel != []
    ensures var out := Reduce(columns, sel, regionText);
      && out.Ok? && out.value.Stats?
      && out.value.region == regionText
      && out.value.totalModifiedReads == SumOf(sel, ModifiedReads)
      && out.value.totalUnmodifiedReads == SumOf(sel, CanonicalReads)
      && out.value.totalReads == out.value.totalModifiedReads + out.value.totalUnmodifiedReads
      && out.value.overallMethylationPercent == RoundCents(Percent(out.value.totalModifiedReads, out.value.totalReads))
      && (out.value.otherModifications.Some?
          <==> NOtherMod in columns && SumOf(sel, OtherModReads) > 0)
      && (out.value.otherModifications.Some? ==>
          out.value.otherModifications.value == SumOf(sel, OtherModReads))
  {
  }

  /** Read counts that are never negative give a percentage between 0 and 100. */
  lemma {:induction false} ReadCountPercentBounds(columns: seq<Column>, sel: seq<Record>, regionText: string)
    requires Strand in columns && NModified in columns && NCanonical in columns
    requires sel != []
    requires forall i :: 0 <= i < |sel| ==> sel[i].nModified >= 0 && sel[i].nCanonical >= 0
    ensures var out := Reduce(columns, sel, regionText);
      && out.Ok? && out.value.Stats?
      && 0 <= out.value.totalModifiedReads <= out.value.totalReads
      && 0.0 <= out.value.overallMethylationPercent <= 100.0
  {
    ReadCountTotals(columns, sel, regionText);
    SumOfAtLeast(sel, ModifiedReads, 0);
    SumOfAtLeast(sel, CanonicalReads, 0);
    var modified := SumOf(sel, ModifiedReads);
    RoundCentsBounds(Percent(modified, modified + SumOf(sel, CanonicalReads)), 0, 100);
  }

  /**
   * Without read counts, the totals come from the per-row estimates: the
   * reads are the summed coverage, the modified and unmodified estimates
   * together account for the coverage of every row with a known percentage,
   * and no other modifications are reported.
   */
  lemma {:induction false} PercentEstimateTotals(columns: seq<Column>, sel: seq<Record>, regionText: string)
    requires Strand in columns && PercentModified in columns && CoverageColumn in columns
    requires NModified !in columns || NCanonical !in columns
    requires sel != []
    ensures var out := Reduce(columns, sel, regionText);
      && out.Ok? && out.value.Stats?
      && out.value.region == regionText
      && out.value.totalModifiedReads == SumOf(sel, EstimatedModified)
      && out.value.totalUnmodifiedReads == SumOf(sel, EstimatedUnmodified)
      && out.value.totalReads == SumOf(sel, Coverage)
      && out.value.totalModifiedReads + out.value.totalUnmodifiedReads == SumOf(sel, KnownCoverage)
      && out.value.overallMethylationPercent == RoundCents(Percent(out.value.totalModifiedReads, out.value.totalReads))
      && out.value.otherModifications == None
  {
    SumOfAdd(sel, EstimatedModified, EstimatedUnmodified, KnownCoverage);
  }

  /**
   * With percentages between 0 and 100 and non-negative coverage, the
   * estimates never exceed the reads and the percentage is between 0 and 100.
   */
  lemma {:induction false} PercentEstimateBounds(columns: seq<Column>, sel: seq<Record>, regionText: string)
    requires Strand in columns && PercentModified in columns && CoverageColumn in columns
    requires NModified !in columns || NCanonical !in columns
    requires sel != []
    requires forall i :: 0 <= i < |sel| ==> sel[i].coverage >= 0
    requires forall i :: 0 <= i < |sel| && sel[i].percentModified.Some? ==>
      0.0 <= sel[i].percentModified.value <= 100.0
    ensures var out := Reduce(columns, sel, regionText);
      && out.Ok? && out.value.Stats?
      && 0 <= out.value.totalModifiedReads
      && out.value.totalModifiedReads + out.value.totalUnmodifiedReads <= out.value.totalReads
      && 0.0 <= out.value.overallMethylationPercent <= 100.0
  {
    PercentEstimateTotals(columns, sel, regionText);
    EstimateSums(sel);
    RoundCentsBounds(Percent(SumOf(sel, EstimatedModified), SumOf(sel, Coverage)), 0, 100);
  }

  /** Summed estimates from bounded percentages stay between 0 and the summed coverage. */
  lemma {:induction false} EstimateSums(sel: seq<Record>)
    requires forall i :: 0 <= i < |sel| ==> sel[i].coverage >= 0
    requires forall i :: 0 <= i < |sel| && sel[i].percentModified.Some? ==>
      0.0 <= sel[i].percentModified.value <= 100.0
    ensures 0 <= SumOf(sel, EstimatedModified) <= SumOf(sel, KnownCoverage) <= SumOf(sel, Coverage)
    ensures 0 <= SumOf(sel, EstimatedUnmodified)
  {
    forall i | 0 <= i < |sel|
      ensures 0 <= EstimatedModified(sel[i]) <= KnownCoverage(sel[i]) <= Coverage(sel[i])
      ensures EstimatedUnmodified(sel[i]) >= 0
    {
      if sel[i].percentModified.Some? {
        EstimateBounds(sel[i]);
      }
    }
    SumOfAtLeast(sel, EstimatedModified, 0);
    SumOfAtLeast(sel, EstimatedUnmodified, 0);
    SumOfMonotone(sel, EstimatedModified, KnownCoverage);
    SumOfMonotone(sel, KnownCoverage, Coverage);
  }

  /**
   * An estimate from a percentage between 0 and 100 and a non-negative
   * coverage is itself between 0 and the coverage.
   */
  lemma EstimateBounds(r: Record)
    requires r.percentModified.Some? && 0.0 <= r.percentModified.value <= 100.0
    requires r.coverage >= 0
    ensures 0 <= EstimatedModified(r) <= r.coverage
    ensures 0 <= EstimatedUnmodified(r) <= r.coverage
  {
    var f := r.percentModified.value / 100.0;
    var c := r.coverage as real;
    assert 0.0 <= f <= 1.0;
    assert 0.0 <= f * c by {
      assert f * c >= 0.0 * c;
    }
    assert f * c <= c by {
      assert (1.0 - f) * c >= 0.0;
    }
  }

  /**
   * The mean and median coverage lie between the smallest and largest
   * coverage of the selected rows; without a coverage column both are 0.
   */
  lemma {:induction false} CoverageStatisticsBounds(columns: seq<Column>, sel: seq<Record>, regionText: string, lo: int, hi: int)
    requires Strand in columns && CoverageColumn in columns
    requires (NModified in columns && NCanonical in columns) || PercentModified in columns
    requires sel != []
    requires forall i :: 0 <= i < |sel| ==> lo <= sel[i].coverage <= hi
    ensures var out := Reduce(columns, sel, regionText);
      && out.Ok? && out.value.Stats?
      && lo as real <= out.value.meanCoverage <= hi as real
      && lo as real <= out.value.medianCoverage <= hi as real
  {
    SumOfAtLeast(sel, Coverage, lo);
    SumOfAtMost(sel, Coverage, hi);
    MeanBounds(SumOf(sel, Coverage), |sel|, lo, hi);
    MedianBounds(Coverages(sel), lo, hi);
    RoundCentsBounds(MeanCoverage(sel), lo, hi);
    RoundCentsBounds(Median(Coverages(sel)), lo, hi);
  }

  /** Without a coverage column, the mean and median coverage are reported as 0. */
  lemma NoCoverageColumn(columns: seq<Column>, sel: seq<Record>, regionText: string)
    requires Strand in columns && CoverageColumn !in columns
    requires NModified in columns && NCanonical in columns
    requires sel != []
    ensures var out := Reduce(columns, sel, regionText);
      && out.Ok? && out.value.Stats?
      && out.value.meanCoverage == 0.0 && out.value.medianCoverage == 0.0
  {
  }

  lemma MeanBounds(sum: int, n: int, lo: int, hi: int)
    requires n > 0 && lo * n <= sum <= hi * n
    ensures lo as real <= sum as real / n as real <= hi as real
  {
    assert (lo * n) as real == lo as real * n as real;
    assert (hi * n) as real == hi as real * n as real;
  }

  lemma MedianBounds(xs: seq<int>, lo: int, hi: int)
    requires xs != []
    requires forall i :: 0 <= i < |xs| ==> lo <= xs[i] <= hi
    ensures lo as real <= Median(xs) <= hi as real
  {
    MedianAtLeast(xs, lo);
    MedianAtMost(xs, hi);
  }

  /** Values all at least `lo` have a median at least `lo`. */
  lemma {:induction false} MedianAtLeast(xs: seq<int>, lo: int)
    requires xs != []
    requires forall i :: 0 <= i < |xs| ==> lo <= xs[i]
    ensures lo as real <= Median(xs)
  {
    var m := Median(xs);
    if m < lo as real {
      forall k | 0 <= k < |xs|
        ensures AtMost(m)(xs[k]) <= 0
      {
        assert xs[k] as real >= lo as real;
      }
      SumOfAtMost(xs, AtMost(m), 0);
    }
  }

  /** Values all at most `hi` have a median at most `hi`. */
  lemma {:induction false} MedianAtMost(xs: seq<int>, hi: int)
    requires xs != []
    requires forall i :: 0 <= i < |xs| ==> xs[i] <= hi
    ensures Median(xs) <= hi as real
  {
    var m := Median(xs);
    if m > hi as real {
      forall k | 0 <= k < |xs|
        ensures AtLeast(m)(xs[k]) <= 0
      {
        assert xs[k] as real <= hi as real;
      }
      SumOfAtMost(xs, AtLeast(m), 0);
    }
  }

  /** The statistics do not depend on the order of the selected rows. */
  lemma {:induction false} SummarizeOrderIndependent(columns: seq<Column>, s1: seq<Record>, s2: seq<Record>,
                                                     regionText: string, modified: int, unmodified: int, total: int, other: int)
    requires s1 != [] && multiset(s1) == multiset(s2)
    ensures s2 != []
    ensures Summarize(columns, s1, regionText, modified, unmodified, total, other)
         == Summarize(columns, s2, regionText, modified, unmodified, total, other)
  {
    assert |s1| == |multiset(s1)| == |multiset(s2)| == |s2|;
    SumOfPermutation(s1, s2, Coverage);
    SumOfPermutation(s1, s2, PlusStrand);
    SumOfPermutation(s1, s2, MinusStrand);
    CoveragesPermutation(s1, s2);
    MedianPermutation(Coverages(s1), Coverages(s2));
  }

  /** The reduction does not depend on the order of the selected rows. */
  lemma {:induction false} ReduceOrderIndependent(columns: seq<Column>, s1: seq<Record>, s2: seq<Record>, regionText: string)
    requires multiset(s1) == multiset(s2)
    ensures Reduce(columns, s1, regionText) == Reduce(columns, s2, regionText)
  {
    assert |s1| == |multiset(s1)| == |multiset(s2)| == |s2|;
    if s1 != [] {
      if NModified in columns && NCanonical in columns {
        var modified := SumOf(s1, ModifiedReads);
        var unmodified := SumOf(s1, CanonicalReads);
        var other := if NOtherMod in columns then SumOf(s1, OtherModReads) else 0;
        SumOfPermutation(s1, s2, ModifiedReads);
        SumOfPermutation(s1, s2, CanonicalReads);
        SumOfPermutation(s1, s2, OtherModReads);
        SummarizeOrderIndependent(columns, s1, s2, regionText, modified, unmodified, modified + unmodified, other);
      } else if PercentModified in columns && CoverageColumn in columns {
        SumOfPermutation(s1, s2, EstimatedModified);
        SumOfPermutation(s1, s2, EstimatedUnmodified);
        SumOfPermutation(s1, s2, Coverage);
        SummarizeOrderIndependent(columns, s1, s2, regionText,
          SumOf(s1, EstimatedModified), SumOf(s1, EstimatedUnmodified), SumOf(s1, Coverage), 0);
      }
    }
  }

  /** Rows that are a reordering of each other select a reordering of each other. */
  lemma {:induction false} SelectPermutation(a: seq<Record>, b: seq<Record>, chrom: string, start: int, end: int)
    requires multiset(a) == multiset(b)
    ensures multiset(Select(a, chrom, start, end)) == multiset(Select(b, chrom, start, end))
  {
    SelectExact(a, [], chrom, start, end);
    SelectExact(b, [], chrom, start, end);
  }

  /** The result does not depend on the order of the rows in the file. */
  lemma {:induction false} OrderIndependent(df1: Frame, df2: Frame, chrom: string, start: int, end: int)
    requires df1.columns == df2.columns
    requires multiset(df1.rows) == multiset(df2.rows)
    ensures CalculateRegionMethylation(df1, chrom, start, end) == CalculateRegionMethylation(df2, chrom, start, end)
  {
    SelectPermutation(df1.rows, df2.rows, chrom, start, end);
    LocationColumns(df1, chrom, start, end);
    LocationColumns(df2, chrom, start, end);
    ReduceOrderIndependent(df1.columns, Select(df1.rows, chrom, start, end),
      Select(df2.rows, chrom, start, end), RegionLabel(chrom, start, end));
  }

  /**
   * Which standard columns a layout of `numColumns` names holds: the four
   * location columns from four fields, `strand` from six, `coverage` from
   * ten, `percent_modified` from eleven, the read counts from twelve and
   * thirteen, `n_other_mod` from fourteen.
   */
  lemma LayoutHolds(numColumns: nat)
    ensures HasLocation(Layout(numColumns)) <==> numColumns >= 4
    ensures Strand in Layout(numColumns) <==> numColumns >= 6
    ensures CoverageColumn in Layout(numColumns) <==> numColumns >= 10
    ensures PercentModified in Layout(numColumns) <==> numColumns >= 11
    ensures NModified in Layout(numColumns) <==> numColumns >= 12
    ensures NCanonical in Layout(numColumns) <==> numColumns >= 13
    ensures NOtherMod in Layout(numColumns) <==> numColumns >= 14
  {
    ColumnPresence(numColumns, 0);
    ColumnPresence(numColumns, 1);
    ColumnPresence(numColumns, 2);
    ColumnPresence(numColumns, 3);
    ColumnPresence(numColumns, 5);
    ColumnPresence(numColumns, 9);
    ColumnPresence(numColumns, 10);
    ColumnPresence(numColumns, 11);
    ColumnPresence(numColumns, 12);
    ColumnPresence(numColumns, 13);
  }

  /** A frame of fewer than four columns has no `mod_type` column. */
  lemma ShortLayoutMissesModType(numColumns: nat, rows: seq<Record>, chrom: string, start: int, end: int)
    requires numColumns < 4
    ensures CalculateRegionMethylation(Frame(Layout(numColumns), rows), chrom, start, end)
      == Err(KeyError(ModType))
  {
    LayoutHolds(numColumns);
    LocationColumns(Frame(Layout(numColumns), rows), chrom, start, end);
  }

  /**
   * How the reduction goes for a layout of at least four columns when rows
   * are selected: never a `KeyError` (a layout without `strand` has no way
   * to count reads either); up to ten columns cannot count reads; eleven or
   * twelve estimate from the percentage; thirteen or more use the read counts.
   */
  lemma {:induction false} LayoutBranches(numColumns: nat, sel: seq<Record>, regionText: string)
    requires numColumns >= 4
    requires sel != []
    ensures var out := Reduce(Layout(numColumns), sel, regionText);
      && out.Ok?
      && (numColumns <= 10 ==> out.value == Failure(InsufficientColumnsMessage, |sel|, 0, 0, 0, 0.0))
      && (numColumns >= 11 ==> out.value.Stats?)
      && (11 <= numColumns <= 12 ==> out.value.totalReads == SumOf(sel, Coverage))
      && (numColumns >= 13 ==> out.value.totalModifiedReads == SumOf(sel, ModifiedReads))
  {
    LayoutHolds(numColumns);
    var columns := Layout(numColumns);
    if numColumns <= 10 {
      InsufficientColumns(columns, sel, regionText);
    } else if numColumns <= 12 {
      PercentEstimateTotals(columns, sel, regionText);
    } else {
      ReadCountTotals(columns, sel, regionText);
    }
  }
}
