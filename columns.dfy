/**
 * The column layout `read_bedmethyl` gives a bedMethyl file: the number of
 * tab-separated fields on its first data line decides how many of the
 * eighteen standard column names apply.
 */
module ColumnLayout {
  import opened PyText

  /** The eighteen bedMethyl column names. */
  datatype Column =
    | Chrom | Start | End | ModType | Score
    | Strand | StartDup | EndDup | Color | CoverageColumn
    | PercentModified | NModified | NCanonical | NOtherMod
    | NDelete | NFail | NDiff | NNocall

  /** The column names in file order. */
  const BedMethylColumns: seq<Column> := [
    Chrom, Start, End, ModType, Score,
    Strand, StartDup, EndDup, Color, CoverageColumn,
    PercentModified, NModified, NCanonical, NOtherMod,
    NDelete, NFail, NDiff, NNocall
  ]

  /** The name pandas gives the column. */
  function Name(c: Column): string {
    match c
    case Chrom => "chrom"
    case Start => "start"
    case End => "end"
    case ModType => "mod_type"
    case Score => "score"
    case Strand => "strand"
    case StartDup => "start_dup"
    case EndDup => "end_dup"
    case Color => "color"
    case CoverageColumn => "coverage"
    case PercentModified => "percent_modified"
    case NModified => "n_modified"
    case NCanonical => "n_canonical"
    case NOtherMod => "n_other_mod"
    case NDelete => "n_delete"
    case NFail => "n_fail"
    case NDiff => "n_diff"
    case NNocall => "n_nocall"
  }

  /** No two columns share a name, so a column is known by its name alone. */
  lemma NameInjective(c: Column, d: Column)
    ensures Name(c) == Name(d) ==> c == d
  {
  }

  function Min(a: int, b: int): int {
    if a <= b then a else b
  }

  /** The names that apply to a file with `numColumns` fields per line. */
  function Layout(numColumns: nat): seq<Column> {
    BedMethylColumns[..Min(numColumns, |BedMethylColumns|)]
  }

  /**
   * `len(first_line.split('\t'))` on the stripped first data line: one more
   * than its number of tabs. Stripping removes tabs at either end first.
   */
  function FieldCount(line: string): (n: nat)
    ensures n == Count(Strip(line), '\t') + 1
    ensures n >= 1
  {
    |Split(Strip(line), '\t')|
  }

  /**
   * Starts from the ten base names, appends each further name whose field
   * the line has, and keeps the first `numColumns` names.
   */
  method ColumnNames(numColumns: nat) returns (columns: seq<Column>)
    ensures columns == Layout(numColumns)
    ensures |columns| == Min(numColumns, 18)
    ensures NModified in columns <==> numColumns >= 12
    ensures NCanonical in columns <==> numColumns >= 13
  {
    var base := [
      Chrom, Start, End, ModType, Score,
      Strand, StartDup, EndDup, Color, CoverageColumn
    ];
    assert base == BedMethylColumns[..10];
    if numColumns >= 11 {
      base := base + [PercentModified];
      assert base == BedMethylColumns[..11];
    }
    if numColumns >= 12 {
      base := base + [NModified];
      assert base == BedMethylColumns[..12];
    }
    if numColumns >= 13 {
      base := base + [NCanonical];
      assert base == BedMethylColumns[..13];
    }
    if numColumns >= 14 {
      base := base + [NOtherMod];
      assert base == BedMethylColumns[..14];
    }
    if numColumns >= 15 {
      base := base + [NDelete];
      assert base == BedMethylColumns[..15];
    }
    if numColumns >= 16 {
      base := base + [NFail];
      assert base == BedMethylColumns[..16];
    }
    if numColumns >= 17 {
      base := base + [NDiff];
      assert base == BedMethylColumns[..17];
    }
    if numColumns >= 18 {
      base := base + [NNocall];
      assert base == BedMethylColumns[..18];
    }
    assert base == BedMethylColumns[..|base|];
    columns := if numColumns <= |base| then base[..numColumns] else base;
    ColumnPresence(numColumns, 11);
    ColumnPresence(numColumns, 12);
  }

  /** No name occurs twice in the list. */
  lemma NamesDistinct()
    ensures forall i, j :: 0 <= i < j < |BedMethylColumns| ==> BedMethylColumns[i] != BedMethylColumns[j]
  {
  }

  /** The `k`-th standard name is in the layout exactly when the line has more than `k` fields. */
  lemma ColumnPresence(numColumns: nat, k: nat)
    requires k < |BedMethylColumns|
    ensures BedMethylColumns[k] in Layout(numColumns) <==> k < numColumns
  {
    NamesDistinct();
    var layout := Layout(numColumns);
    if BedMethylColumns[k] in layout {
      var j :| 0 <= j < |layout| && layout[j] == BedMethylColumns[k];
      assert layout[j] == BedMethylColumns[j];
    }
    if k < numColumns {
      assert layout[k] == BedMethylColumns[k];
    }
  }
}
