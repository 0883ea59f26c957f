/**
 * The region argument: `parse_region` turns the user's `chrom:start-end`
 * (1-based, inclusive) into `(chrom, start - 1, end)`, which is 0-based and
 * half-open, and the statistics print a region back as `chrom:start+1-end`.
 */
module RegionParser {
  import opened Wrappers
  import opened PyText

  /** A parsed region: 0-based start, exclusive end. Nothing orders the two. */
  datatype Region = Region(chrom: string, start: int, end: int)

  /** The `ValueError` that `parse_region` raises; it quotes the rejected text. */
  datatype RegionError = InvalidRegionFormat(text: string)

  /**
   * Splits once on `:` and once on `-` and reads both bounds with `int()`.
   * Any failure on the way becomes `InvalidRegionFormat`. Commas are not
   * stripped, and `end <= start` is not rejected.
   */
  function ParseRegion(s: string): (r: Result<Region, RegionError>)
    ensures Count(s, ':') != 1 ==> r == Err(InvalidRegionFormat(s))
    ensures r.Err? ==> r.error == InvalidRegionFormat(s)
    ensures r.Ok? ==> ':' !in r.value.chrom && r.value.chrom + [':'] <= s
    ensures r.Ok? ==> r.value.start >= -1 && r.value.end >= 0
  {
    var halves := Split(s, ':');
    if |halves| != 2 then Err(InvalidRegionFormat(s))
    else
      match ParseBounds(halves[1])
      case Some((first, last)) =>
        assert halves == [halves[0], halves[1]];
        JoinTwo(halves[0], halves[1], ':');
        Ok(Region(halves[0], first - 1, last))
      case None => Err(InvalidRegionFormat(s))
  }

  /** The coordinate part `start-end`, each side read by `int()`. */
  function ParseBounds(coords: string): (r: Option<(int, int)>)
    ensures Count(coords, '-') != 1 ==> r == None
    ensures r.Some? ==> r.value.0 >= 0 && r.value.1 >= 0
  {
    var bounds := Split(coords, '-');
    if |bounds| != 2 then None
    else
      match (ParseInt(bounds[0]), ParseInt(bounds[1]))
      case (Some(first), Some(last)) => Some((first, last))
      case _ => None
  }

  /** The `chrom:start+1-end` text the statistics use to name a region. */
  function RegionLabel(chrom: string, start: int, end: int): string {
    chrom + ":" + IntText(start + 1) + "-" + IntText(end)
  }

  /**
   * A string with one colon, and one dash after it, parses exactly when both
   * bounds are integer literals for `int()`; the chromosome is the text before
   * the colon, verbatim.
   */
  lemma {:induction false} ParseRegionOfParts(chrom: string, first: string, last: string)
    requires ':' !in chrom && ':' !in first && ':' !in last
    requires '-' !in first && '-' !in last
    ensures ParseRegion(chrom + ":" + first + "-" + last).Ok?
        <==> ParseInt(first).Some? && ParseInt(last).Some?
    ensures ParseRegion(chrom + ":" + first + "-" + last).Ok? ==>
      ParseRegion(chrom + ":" + first + "-" + last).value
        == Region(chrom, ParseInt(first).value - 1, ParseInt(last).value)
  {
    var coords := first + "-" + last;
    var s := chrom + ":" + first + "-" + last;
    assert s == chrom + [':'] + coords;
    SplitAtOne(chrom, coords, ':');
    ParseBoundsOfParts(first, last);
    ParseRegionOfHalves(s, chrom, coords);
  }

  lemma {:induction false} ParseBoundsOfParts(first: string, last: string)
    requires '-' !in first && '-' !in last
    ensures ParseBounds(first + "-" + last).Some? <==> ParseInt(first).Some? && ParseInt(last).Some?
    ensures ParseBounds(first + "-" + last).Some? ==>
      ParseBounds(first + "-" + last).value == (ParseInt(first).value, ParseInt(last).value)
  {
    assert first + "-" + last == first + ['-'] + last;
    SplitAtOne(first, last, '-');
  }

  lemma ParseRegionOfHalves(s: string, chrom: string, coords: string)
    requires Split(s, ':') == [chrom, coords]
    ensures ParseBounds(coords).None? ==> ParseRegion(s) == Err(InvalidRegionFormat(s))
    ensures ParseBounds(coords).Some? ==>
      && ParseRegion(s).Ok?
      && ParseRegion(s).value == Region(chrom, ParseBounds(coords).value.0 - 1, ParseBounds(coords).value.1)
  {
    var halves := Split(s, ':');
    assert |halves| == 2 && halves[0] == chrom && halves[1] == coords;
  }

  /** Splitting `a + [sep] + b` with `sep` in neither piece gives back `[a, b]`. */
  lemma SplitAtOne(a: string, b: string, sep: char)
    requires sep !in a && sep !in b
    ensures Split(a + [sep] + b, sep) == [a, b]
  {
    JoinTwo(a, b, sep);
    SplitJoin([a, b], sep);
  }

  /** With one colon, a coordinate part without exactly one dash is refused. */
  lemma {:induction false} ParseRegionWrongDashes(chrom: string, coords: string)
    requires ':' !in chrom && ':' !in coords
    requires Count(coords, '-') != 1
    ensures ParseRegion(chrom + ":" + coords) == Err(InvalidRegionFormat(chrom + ":" + coords))
  {
    SplitAtOne(chrom, coords, ':');
  }

  /**
   * `"c:s-e"` with non-negative decimal `s` and `e` gives `(c, s - 1, e)`,
   * also when `e` is smaller than `s`: nothing checks the order.
   */
  lemma {:induction false} ParseRegionOfNumbers(chrom: string, first: nat, last: nat)
    requires ':' !in chrom
    ensures ParseRegion(chrom + ":" + DecimalText(first) + "-" + DecimalText(last))
         == Ok(Region(chrom, first - 1, last))
  {
    assert IntText(first) == DecimalText(first) && IntText(last) == DecimalText(last);
    ParseIntOfIntText(first);
    ParseIntOfIntText(last);
    ParseRegionOfParts(chrom, DecimalText(first), DecimalText(last));
  }

  /**
   * Printing a region back and parsing the text again gives the same region,
   * whenever the region could have come from the parser.
   */
  lemma {:induction false} ParseRegionOfLabel(g: Region)
    requires ':' !in g.chrom && g.start >= -1 && g.end >= 0
    ensures ParseRegion(RegionLabel(g.chrom, g.start, g.end)) == Ok(g)
  {
    ParseRegionOfNumbers(g.chrom, g.start + 1, g.end);
  }

  /** Every region the parser returns survives printing and parsing again. */
  lemma {:induction false} ParsedRegionRoundTrip(s: string)
    requires ParseRegion(s).Ok?
    ensures var g := ParseRegion(s).value;
      ParseRegion(RegionLabel(g.chrom, g.start, g.end)) == Ok(g)
  {
    ParseRegionOfLabel(ParseRegion(s).value);
  }

  /** Comma-grouped bounds are refused: `int()` does not accept a comma. */
  lemma {:induction false} ParseRegionRejectsCommas(chrom: string, first: string, last: string)
    requires ':' !in chrom && ':' !in first && ':' !in last
    requires '-' !in first && '-' !in last
    requires ',' in first || ',' in last
    ensures ParseRegion(chrom + ":" + first + "-" + last).Err?
  {
    if ',' in first {
      ParseIntRejectsComma(first);
    } else {
      ParseIntRejectsComma(last);
    }
    ParseRegionOfParts(chrom, first, last);
  }

  /** Comma grouping is refused. */
  lemma {:induction false} ParseRegionCommaExample(s: string)
    requires s == "chr1:1,000-2,000"
    ensures ParseRegion(s).Err?
  {
    assert s == "chr1" + ":" + "1,000" + "-" + "2,000";
    ParseRegionRejectsCommas("chr1", "1,000", "2,000");
  }

  /** A region without an end is refused. */
  lemma {:induction false} ParseRegionNoEndExample(s: string)
    requires s == "chr1:100"
    ensures ParseRegion(s).Err?
  {
    assert s == "chr1" + ":" + "100";
    assert Count("100", '-') == 0;
    ParseRegionWrongDashes("chr1", "100");
  }

  /** A region without a colon is refused. */
  lemma {:induction false} ParseRegionNoColonExample(s: string)
    requires s == "chr1-100-200"
    ensures ParseRegion(s).Err?
  {
    assert ':' !in s;
  }
}
