/**
 * The text bar `print_results` draws under the overall percentage: forty
 * cells, of which `int(40 * pct / 100)` are filled.
 */
module Report {
  import opened Wrappers
  import opened PyText
  import opened ColumnLayout
  import opened RegionMethylation

  const BarLength: int := 40
  const FilledCell: char := '█'
  const EmptyCell: char := '░'

  /** Python's `int()` on a float: the fractional part is dropped, toward zero. */
  function TruncateTowardZero(x: real): (n: int)
    ensures 0.0 <= x ==> 0 <= n && n as real <= x < n as real + 1.0
    ensures x < 0.0 ==> n <= 0 && n as real - 1.0 < x <= n as real
  {
    if x >= 0.0 then x.Floor else -((-x).Floor)
  }

  /** The number of filled cells for a percentage. */
  function Filled(pct: real): int {
    TruncateTowardZero(BarLength as real * pct / 100.0)
  }

  /**
   * `'█' * filled + '░' * (40 - filled)`: a repetition by a negative count is
   * empty, so the bar is only forty cells long when `filled` is in 0..40.
   */
  function Bar(pct: real): (bar: string)
    ensures |bar| == Max(Filled(pct), 0) + Max(BarLength - Filled(pct), 0)
    ensures forall i :: 0 <= i < |bar| ==> bar[i] == (if i < Filled(pct) then FilledCell else EmptyCell)
  {
    Repeat(FilledCell, Filled(pct)) + Repeat(EmptyCell, BarLength - Filled(pct))
  }

  function Max(a: int, b: int): int {
    if a >= b then a else b
  }

  /**
   * For a percentage between 0 and 100 the bar has forty cells, and the
   * filled ones are the whole part of `0.4 * pct`: truncated, not rounded.
   */
  lemma BarOfPercentage(pct: real)
    requires 0.0 <= pct <= 100.0
    ensures 0 <= Filled(pct) <= BarLength
    ensures Filled(pct) as real <= 0.4 * pct < Filled(pct) as real + 1.0
    ensures |Bar(pct)| == BarLength
  {
  }

  /** A larger percentage never fills fewer cells. */
  lemma FilledMonotone(p: real, q: real)
    requires p <= q
    ensures Filled(p) <= Filled(q)
  {
    var x, y := BarLength as real * p / 100.0, BarLength as real * q / 100.0;
    assert x <= y;
  }

  /** 0% fills nothing, 50% half the bar, 100% all of it, and 99.9% is truncated to 39 cells. */
  lemma FilledExamples()
    ensures Filled(0.0) == 0 && Filled(50.0) == 20 && Filled(100.0) == 40 && Filled(99.9) == 39
    ensures Filled(2.49) == 0
  {
  }

  /**
   * The bar `print_results` prints for a result dictionary: none when the
   * dictionary carries an error, since it returns after printing the error.
   */
  function ResultBar(s: Summary): (bar: Option<string>)
    ensures bar.Some? <==> s.Stats?
    ensures bar.Some? ==> bar.value == Bar(s.overallMethylationPercent)
  {
    match s
    case Failure(_, _, _, _, _, _) => None
    case Stats(_, _, _, _, _, pct, _, _, _, _, _) => Some(Bar(pct))
  }

  /**
   * A computed result whose read counts are never negative is drawn as a
   * bar of exactly forty cells.
   */
  lemma {:induction false} ReadCountBarLength(columns: seq<Column>, sel: seq<Record>, regionText: string)
    requires Strand in columns && NModified in columns && NCanonical in columns
    requires sel != []
    requires forall i :: 0 <= i < |sel| ==> sel[i].nModified >= 0 && sel[i].nCanonical >= 0
    ensures var out := Reduce(columns, sel, regionText);
      && out.Ok? && ResultBar(out.value).Some?
      && |ResultBar(out.value).value| == BarLength
  {
    ReadCountPercentBounds(columns, sel, regionText);
    BarOfPercentage(Reduce(columns, sel, regionText).value.overallMethylationPercent);
  }
}
