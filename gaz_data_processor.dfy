/**
 * GazDataProcessor.process_csv_files: each raw pollutant export of the input folder is
 * cleaned, grouped by (end date, pollutant, zone) and written to the output folder as
 * `<name>_output.csv`, unless that output already exists.
 *
 * Reading a CSV file yields a `CsvFile`: its table and the dtype pandas inferred for each
 * column (which decides how `custom_agg` aggregates it). The output folder is a map from
 * file name to the table written under that name.
 */
module GazDataProcessor {
  import opened Wrappers
  import opened Text
  import opened Calendar
  import opened Frames
  import opened Ordering

  const Polluant := "Polluant"
  const Zas := "Zas"
  const DateDeDebut := "Date de début"
  const DateDeFin := "Date de fin"
  const Valeur := "valeur"
  const CodeQualite := "code qualité"
  const Unite := "unité de mesure"

  /** Columns a row must have a value in to survive cleaning. */
  const ColsOfInterest := [DateDeDebut, DateDeFin, Polluant, Valeur, CodeQualite, Unite]

  /** Columns removed after grouping. */
  const DroppedColumns := ["taux de saisie", "couverture temporelle", "couverture de données"]

  /** The columns of every output file, in this order. */
  const ColsToKeep := [DateDeFin, Polluant, Zas, "type d'implantation", "type d'influence",
                       "type d'évaluation", "procédure de mesure", Valeur, CodeQualite, Unite]

  /** The grouping columns. */
  const GroupColumns := [DateDeFin, Polluant, Zas]

  /** Pollutants removed from every file. */
  const ExcludedPollutants := {"C6H6", "SO2", "CO"}

  /** Pollutant codes that are rewritten. */
  const RawCodes := {"NO", "NOX", "NOX as NO2", "PM2.5"}

  /**
   * The dtype pandas inferred for a column, as `custom_agg` distinguishes them: text
   * (object, possibly with NaN), a number dtype, or anything else.
   */
  datatype Kind = TextKind | NumericKind | OtherKind

  datatype CsvFile = CsvFile(table: Table, kinds: map<string, Kind>)

  function KindOf(f: CsvFile, c: string): Kind
  {
    if c in f.kinds then f.kinds[c] else OtherKind
  }

  /** The exceptions pandas raises part-way through a file. */
  datatype ProcessError =
    | MissingColumn(column: string)       // KeyError: a column the code names is absent
    | UnconvertibleEndDate(cell: Value)   // pd.to_datetime could not read an end date
    | UnitNotText                         // the .str accessor on a non-string unit column

  /** What happens to one selected file whose output does not exist yet. */
  datatype FileOutcome = Written(table: Table) | Skipped | Failed(error: ProcessError)

  // ---------------------------------------------------------------- custom_agg

  /** The numbers among the cells; pandas' mean skips NaN. */
  function Numbers(cells: seq<Cell>): (xs: seq<real>)
    ensures forall x :: x in xs <==> Some(Num(x)) in cells
  {
    if cells == [] then []
    else
      assert forall c :: c in cells <==> c == cells[0] || c in cells[1..];
      (match cells[0] case Some(Num(x)) => [x] case _ => []) + Numbers(cells[1..])
  }

  function Sum(xs: seq<real>): real
  {
    if xs == [] then 0.0 else xs[0] + Sum(xs[1..])
  }

  /** Series.mean(): missing when there is nothing to average. */
  function Mean(xs: seq<real>): Option<real>
  {
    if xs == [] then None else Some(Sum(xs) / |xs| as real)
  }

  /** A cell holding a string. */
  predicate IsText(cell: Cell)
  {
    cell.Some? && cell.value.Str?
  }

  /** `is_string_dtype` of an object Series: every element is a string, none is NaN. */
  predicate AllText(cells: seq<Cell>)
  {
    forall i :: 0 <= i < |cells| ==> IsText(cells[i])
  }

  /**
   * custom_agg: a group of a text column whose cells are all strings takes its first
   * cell, a numeric column the mean of its numbers, anything else NaN. (pandas never
   * aggregates an empty group.)
   */
  function CustomAgg(kind: Kind, cells: seq<Cell>): Cell
  {
    match kind
    case TextKind => if cells != [] && AllText(cells) then cells[0] else None
    case NumericKind => (match Mean(Numbers(cells)) case Some(m) => Some(Num(m)) case None => None)
    case OtherKind => None
  }

  lemma {:induction false} SumBounds(xs: seq<real>, lo: real, hi: real)
    requires forall x :: x in xs ==> lo <= x <= hi
    ensures |xs| as real * lo <= Sum(xs) <= |xs| as real * hi
  {
    if xs != [] {
      assert xs[0] in xs;
      assert forall x :: x in xs[1..] ==> x in xs;
      SumBounds(xs[1..], lo, hi);
      var m := |xs[1..]| as real;
      assert |xs| as real * lo == lo + m * lo;
      assert |xs| as real * hi == hi + m * hi;
    }
  }

  /** A group mean lies between the smallest and the largest number of the group. */
  lemma MeanBetween(xs: seq<real>, lo: real, hi: real)
    requires xs != []
    requires forall x :: x in xs ==> lo <= x <= hi
    ensures Mean(xs).Some? && lo <= Mean(xs).value <= hi
  {
    SumBounds(xs, lo, hi);
    var n := |xs| as real;
    assert Sum(xs) / n - lo == (Sum(xs) - n * lo) / n;
    assert hi - Sum(xs) / n == (n * hi - Sum(xs)) / n;
  }

  /**
   * A numeric column aggregates to a number between the group's least and greatest
   * number, and to NaN exactly when the group has no number.
   */
  lemma NumericAggregateBetween(cells: seq<Cell>, lo: real, hi: real)
    requires cells != []
    requires forall x :: Some(Num(x)) in cells ==> lo <= x <= hi
    ensures var r := CustomAgg(NumericKind, cells);
      (r.None? <==> Numbers(cells) == [])
      && (r.Some? ==> r.value.Num? && lo <= r.value.x <= hi)
  {
    if Numbers(cells) != [] {
      MeanBetween(Numbers(cells), lo, hi);
    }
  }

  // ---------------------------------------------------------------- cleaning

  /** The pollutant-code rewrite: NO, NOX and "NOX as NO2" to NO2, PM2.5 to PM25. */
  function CanonicalPollutant(p: string): string
  {
    if p == "NO" || p == "NOX" || p == "NOX as NO2" then "NO2"
    else if p == "PM2.5" then "PM25"
    else p
  }

  /** The rewrite never yields a code it rewrites, so applying it twice changes nothing. */
  lemma CanonicalPollutantIdempotent(p: string)
    ensures CanonicalPollutant(p) !in RawCodes
    ensures CanonicalPollutant(CanonicalPollutant(p)) == CanonicalPollutant(p)
    ensures p !in RawCodes ==> CanonicalPollutant(p) == p
  {
  }

  function ReplacePollutant(r: Row): Row
  {
    match Get(r, Polluant)
    case Some(Str(p)) => r[Polluant := Some(Str(CanonicalPollutant(p)))]
    case _ => r
  }

  /**
   * `data['Polluant'].replace({...})` over every row: a string pollutant becomes its
   * canonical code, and nothing else in any row changes.
   */
  function ReplacePollutants(rows: seq<Row>): (out: seq<Row>)
    ensures |out| == |rows|
    ensures forall i :: 0 <= i < |rows| ==> out[i].Keys == rows[i].Keys
    ensures forall i, c :: 0 <= i < |rows| && c != Polluant ==> Get(out[i], c) == Get(rows[i], c)
    ensures forall i :: 0 <= i < |rows| && IsText(Get(rows[i], Polluant)) ==>
      Get(out[i], Polluant) == Some(Str(CanonicalPollutant(Get(rows[i], Polluant).value.s)))
    ensures forall i :: 0 <= i < |rows| && !IsText(Get(rows[i], Polluant)) ==>
      Get(out[i], Polluant) == Get(rows[i], Polluant)
  {
    seq(|rows|, i requires 0 <= i < |rows| => ReplacePollutant(rows[i]))
  }

  predicate IsExcluded(r: Row)
  {
    match Get(r, Polluant)
    case Some(Str(p)) => p in ExcludedPollutants
    case _ => false
  }

  predicate NotExcluded(r: Row)
  {
    !IsExcluded(r)
  }

  /** `data[~data['Polluant'].isin(['C6H6', 'SO2', 'CO'])]` */
  function DropExcluded(rows: seq<Row>): (kept: seq<Row>)
    ensures forall r :: r in kept <==> r in rows && !IsExcluded(r)
  {
    Filter(rows, NotExcluded)
  }

  /** The mask keeps the other rows in their order and as often as they occur. */
  lemma DropExcludedInOrder(a: seq<Row>, b: seq<Row>)
    ensures DropExcluded(a + b) == DropExcluded(a) + DropExcluded(b)
    ensures forall r :: multiset(DropExcluded(a))[r] == if IsExcluded(r) then 0 else multiset(a)[r]
  {
    FilterAppend(a, b, NotExcluded);
    FilterCount(a, NotExcluded);
  }

  /** A value in each of ColsOfInterest. */
  predicate Complete(r: Row)
  {
    && Get(r, DateDeDebut).Some? && Get(r, DateDeFin).Some? && Get(r, Polluant).Some?
    && Get(r, Valeur).Some? && Get(r, CodeQualite).Some? && Get(r, Unite).Some?
  }

  /** `data.dropna(subset=cols_of_interest)` */
  function DropIncomplete(rows: seq<Row>): (kept: seq<Row>)
    ensures forall r :: r in kept <==> r in rows && Complete(r)
  {
    Filter(rows, Complete)
  }

  /** dropna keeps the complete rows in their order and as often as they occur. */
  lemma DropIncompleteInOrder(a: seq<Row>, b: seq<Row>)
    ensures DropIncomplete(a + b) == DropIncomplete(a) + DropIncomplete(b)
    ensures forall r :: multiset(DropIncomplete(a))[r] == if Complete(r) then multiset(a)[r] else 0
  {
    FilterAppend(a, b, Complete);
    FilterCount(a, Complete);
  }

  /**
   * A wanted column that is not among `present`, the first in `wanted` order, or None
   * when all are present. (pandas' KeyError lists every missing column.)
   */
  function FirstMissing(wanted: seq<string>, present: seq<string>): (r: Option<string>)
    ensures r.None? <==> forall c :: c in wanted ==> c in present
    ensures r.Some? ==> r.value in wanted && r.value !in present
  {
    if wanted == [] then None
    else if wanted[0] !in present then Some(wanted[0])
    else
      assert forall c :: c in wanted <==> c == wanted[0] || c in wanted[1..];
      FirstMissing(wanted[1..], present)
  }

  /** The end date of a row, truncated to its calendar day. */
  function TruncateEndDate(r: Row, at: Instant): Row
  {
    r[DateDeFin := Some(Day(at.day))]
  }

  /**
   * `pd.to_datetime(data['Date de fin']).dt.date`: pandas' timestamp parser is the
   * parameter `toDatetime`; one unreadable cell fails the whole column.
   */
  function TruncateEndDates(rows: seq<Row>, toDatetime: Value -> Option<Instant>): (r: Result<seq<Row>, ProcessError>)
    requires forall row :: row in rows ==> Get(row, DateDeFin).Some?
    ensures r.Ok? <==> forall row :: row in rows ==> toDatetime(Get(row, DateDeFin).value).Some?
    ensures r.Ok? ==> |r.value| == |rows|
    ensures r.Ok? ==> forall i :: 0 <= i < |rows| ==>
      r.value[i] == TruncateEndDate(rows[i], toDatetime(Get(rows[i], DateDeFin).value).value)
  {
    if rows == [] then Ok([])
    else
      assert forall row :: row in rows <==> row == rows[0] || row in rows[1..];
      match toDatetime(Get(rows[0], DateDeFin).value)
      case None => Err(UnconvertibleEndDate(Get(rows[0], DateDeFin).value))
      case Some(at) =>
        var rest :- TruncateEndDates(rows[1..], toDatetime);
        Ok([TruncateEndDate(rows[0], at)] + rest)
  }

  /** A string pollutant, if any, is not one of the codes the rewrite replaces. */
  predicate CanonicalCode(r: Row)
  {
    Get(r, Polluant).Some? && Get(r, Polluant).value.Str? ==> Get(r, Polluant).value.s !in RawCodes
  }

  lemma ReplacedCodeCanonical(r: Row)
    ensures CanonicalCode(ReplacePollutant(r))
  {
    match Get(r, Polluant)
    case Some(Str(p)) => CanonicalPollutantIdempotent(p);
    case _ =>
  }

  /** Every surviving row is complete, dated by a calendar day, and carries a kept, rewritten code. */
  predicate Clean(r: Row)
  {
    && Complete(r)
    && Get(r, DateDeFin).Some? && Get(r, DateDeFin).value.Day?
    && !IsExcluded(r)
    && CanonicalCode(r)
  }

  /** Every row cleaning keeps satisfies `Clean`. */
  lemma CleanRowsAreClean(f: CsvFile, toDatetime: Value -> Option<Instant>)
    ensures CleanRows(f, toDatetime).Ok? ==> forall row :: row in CleanRows(f, toDatetime).value ==> Clean(row)
  {
    if CleanRows(f, toDatetime).Ok? {
      CleanedInFileOrder(f, toDatetime);
      forall row | row in CleanRows(f, toDatetime).value
        ensures Clean(row)
      {
        var j :| 0 <= j < |f.table.rows| && Cleaning(toDatetime)(f.table.rows[j]) == Some(row);
      }
    }
  }

  /**
   * Lines 61-73: rewrite the codes, drop excluded pollutants, demand the columns of
   * interest (KeyError otherwise), drop incomplete rows, truncate end dates.
   */
  function CleanRows(f: CsvFile, toDatetime: Value -> Option<Instant>): (r: Result<seq<Row>, ProcessError>)
    ensures FirstMissing(ColsOfInterest, f.table.columns).Some? ==> r.Err? && r.error.MissingColumn?
  {
    var kept := DropExcluded(ReplacePollutants(f.table.rows));
    match FirstMissing(ColsOfInterest, f.table.columns)
    case Some(c) => Err(MissingColumn(c))
    case None =>
      var complete := DropIncomplete(kept);
      var dated :- TruncateEndDates(complete, toDatetime);
      Ok(dated)
  }

  // ---------------------------------------------------------------- grouping

  /** The (end date, pollutant, zone) key of a row; groupby drops rows with a missing key. */
  function KeyOf(r: Row): Option<Key>
  {
    if Get(r, DateDeFin).Some? && Get(r, Polluant).Some? && Get(r, Zas).Some?
    then Some(Key(Get(r, DateDeFin).value, Get(r, Polluant).value, Get(r, Zas).value))
    else None
  }

  /** The distinct keys of the rows, ascending, as the groupby returns its groups. */
  function SortedKeys(rows: seq<Row>): (ks: seq<Key>)
    ensures StrictlySorted(ks)
    ensures forall k :: k in ks <==> exists r :: r in rows && KeyOf(r) == Some(k)
  {
    if rows == [] then []
    else
      var n := |rows| - 1;
      assert forall r :: r in rows <==> r in rows[..n] || r == rows[n];
      match KeyOf(rows[n])
      case Some(k) => Insert(k, SortedKeys(rows[..n]))
      case None => SortedKeys(rows[..n])
  }

  /** Whether a row belongs to the group of `k`. */
  function HasKey(k: Key): Row -> bool
  {
    r => KeyOf(r) == Some(k)
  }

  /** The rows of one group, in their original order. */
  function Group(rows: seq<Row>, k: Key): (g: seq<Row>)
    ensures forall r :: r in g <==> r in rows && KeyOf(r) == Some(k)
  {
    Filter(rows, HasKey(k))
  }

  /** A group keeps its rows in their order and as often as they occur. */
  lemma GroupInOrder(a: seq<Row>, b: seq<Row>, k: Key)
    ensures Group(a + b, k) == Group(a, k) + Group(b, k)
    ensures forall r :: multiset(Group(a, k))[r] == if KeyOf(r) == Some(k) then multiset(a)[r] else 0
  {
    FilterAppend(a, b, HasKey(k));
    FilterCount(a, HasKey(k));
  }

  /** The cells of column `c` over a group. */
  function ColumnOf(g: seq<Row>, c: string): (cells: seq<Cell>)
    ensures |cells| == |g|
  {
    seq(|g|, i requires 0 <= i < |g| => Get(g[i], c))
  }

  /** The columns after `.agg(...).reset_index()`: the keys, then the others in order. */
  function GroupedColumns(columns: seq<string>): seq<string>
  {
    GroupColumns + Without(columns, GroupColumns)
  }

  /** `columns` without the names in `drop`, order kept. */
  function Without(columns: seq<string>, drop: seq<string>): (r: seq<string>)
    ensures forall c :: c in r <==> c in columns && c !in drop
  {
    if columns == [] then []
    else
      assert forall c :: c in columns <==> c == columns[0] || c in columns[1..];
      (if columns[0] in drop then [] else [columns[0]]) + Without(columns[1..], drop)
  }

  /** The cell of column `c` in the aggregated row of key `k`. */
  function AggregateCell(f: CsvFile, rows: seq<Row>, k: Key, c: string): Cell
  {
    if c == DateDeFin then Some(k.end)
    else if c == Polluant then Some(k.pollutant)
    else if c == Zas then Some(k.zone)
    else CustomAgg(KindOf(f, c), ColumnOf(Group(rows, k), c))
  }

  lemma GroupOfSortedKey(rows: seq<Row>, k: Key)
    requires k in SortedKeys(rows)
    ensures Group(rows, k) != []
  {
    var r :| r in rows && KeyOf(r) == Some(k);
    assert r in Group(rows, k);
  }

  /** `data.groupby(['Date de fin', 'Polluant', 'Zas']).agg(custom_agg).reset_index()` */
  function GroupBy(f: CsvFile, rows: seq<Row>): (t: Table)
    ensures t.columns == GroupedColumns(f.table.columns)
    ensures |t.rows| == |SortedKeys(rows)|
  {
    var ks := SortedKeys(rows);
    var columns := GroupedColumns(f.table.columns);
    Table(columns, seq(|ks|, i requires 0 <= i < |ks| =>
      map c | c in columns :: AggregateCell(f, rows, ks[i], c)))
  }

  // ---------------------------------------------------------------- finishing

  /** `drop(columns=names)`: KeyError if one is absent. */
  function DropColumns(t: Table, names: seq<string>): (r: Result<Table, ProcessError>)
    ensures r.Ok? ==> r.value.columns == Without(t.columns, names) && |r.value.rows| == |t.rows|
    ensures r.Ok? ==> forall i :: 0 <= i < |t.rows| ==> r.value.rows[i] == t.rows[i] - set c | c in names
  {
    match FirstMissing(names, t.columns)
    case Some(c) => Err(MissingColumn(c))
    case None =>
      var drop := set c | c in names;
      Ok(Table(Without(t.columns, names), seq(|t.rows|, i requires 0 <= i < |t.rows| => t.rows[i] - drop)))
  }

  /** `.str.replace('Â', '')` on one cell: non-strings become NaN. */
  function RepairUnit(c: Cell): (r: Cell)
    ensures r.Some? ==> r.value.Str? && 'Â' !in r.value.s
  {
    match c
    case Some(Str(s)) => Some(Str(RemoveChar(s, 'Â')))
    case _ => None
  }

  /** The unit repair of line 81; the .str accessor demands a string column. */
  function RepairUnits(t: Table, kind: Kind): (r: Result<Table, ProcessError>)
    ensures r.Ok? ==> r.value.columns == t.columns && |r.value.rows| == |t.rows|
    ensures r.Ok? ==> forall i :: 0 <= i < |t.rows| ==> r.value.rows[i] == t.rows[i][Unite := RepairUnit(Get(t.rows[i], Unite))]
  {
    if Unite !in t.columns then Err(MissingColumn(Unite))
    else if kind != TextKind then Err(UnitNotText)
    else Ok(Table(t.columns, seq(|t.rows|, i requires 0 <= i < |t.rows| => t.rows[i][Unite := RepairUnit(Get(t.rows[i], Unite))])))
  }

  /** `t[wanted]`: exactly those columns in that order; KeyError if one is absent. */
  function SelectColumns(t: Table, wanted: seq<string>): (r: Result<Table, ProcessError>)
    ensures r.Ok? ==> r.value.columns == wanted && |r.value.rows| == |t.rows|
    ensures r.Ok? ==> forall i :: 0 <= i < |t.rows| ==> r.value.rows[i] == Widen(t.rows[i], wanted)
    ensures r.Err? <==> FirstMissing(wanted, t.columns).Some?
  {
    match FirstMissing(wanted, t.columns)
    case Some(c) => Err(MissingColumn(c))
    case None => Ok(Table(wanted, seq(|t.rows|, i requires 0 <= i < |t.rows| => Widen(t.rows[i], wanted))))
  }

  /** The output cell of column `c` for the group of key `k`. */
  function OutputCell(f: CsvFile, rows: seq<Row>, k: Key, c: string): Cell
  {
    if c == Unite then RepairUnit(AggregateCell(f, rows, k, c)) else AggregateCell(f, rows, k, c)
  }

  /** The output row of the group of key `k`: each kept column holds its output cell. */
  function OutputRow(f: CsvFile, rows: seq<Row>, k: Key): Row
  {
    map c | c in ColsToKeep :: OutputCell(f, rows, k, c)
  }

  lemma KeptNotDropped()
    ensures forall c :: c in ColsToKeep ==> c !in DroppedColumns
  {
  }

  lemma FinishRow(f: CsvFile, rows: seq<Row>, k: Key, g: Row)
    requires g == map c | c in GroupedColumns(f.table.columns) :: AggregateCell(f, rows, k, c)
    requires forall c :: c in ColsToKeep ==> c in Without(GroupedColumns(f.table.columns), DroppedColumns)
    ensures var dropped := g - set c | c in DroppedColumns;
      Widen(dropped[Unite := RepairUnit(Get(dropped, Unite))], ColsToKeep)
      == OutputRow(f, rows, k)
  {
    var dropped := g - set c | c in DroppedColumns;
    var repaired := dropped[Unite := RepairUnit(Get(dropped, Unite))];
    var w := Widen(repaired, ColsToKeep);
    var m := OutputRow(f, rows, k);
    KeptNotDropped();
    forall c | c in ColsToKeep
      ensures w[c] == m[c]
    {
      assert c in GroupedColumns(f.table.columns);
      assert c in dropped;
    }
  }

  /** Lines 77-87: group, drop three columns, repair units, keep `ColsToKeep`. */
  function Finish(f: CsvFile, rows: seq<Row>): (r: Result<Table, ProcessError>)
    ensures r.Ok? ==> r.value.columns == ColsToKeep && |r.value.rows| == |SortedKeys(rows)|
  {
    var grouped := GroupBy(f, rows);
    var dropped :- DropColumns(grouped, DroppedColumns);
    var repaired :- RepairUnits(dropped, KindOf(f, Unite));
    var selected :- SelectColumns(repaired, ColsToKeep);
    Ok(selected)
  }

  /** Row `i` of a finished table holds the output cells of the i-th sorted key. */
  lemma FinishedRows(f: CsvFile, rows: seq<Row>)
    ensures var r := Finish(f, rows);
      r.Ok? ==> forall i :: 0 <= i < |r.value.rows| ==>
        r.value.rows[i] == OutputRow(f, rows, SortedKeys(rows)[i])
  {
    var r := Finish(f, rows);
    if r.Ok? {
      var grouped := GroupBy(f, rows);
      var dropped := DropColumns(grouped, DroppedColumns).value;
      var repaired := RepairUnits(dropped, KindOf(f, Unite)).value;
      forall i | 0 <= i < |r.value.rows|
        ensures r.value.rows[i] == OutputRow(f, rows, SortedKeys(rows)[i])
      {
        FinishRow(f, rows, SortedKeys(rows)[i], grouped.rows[i]);
      }
    }
  }

  /** The whole treatment of one file whose output does not exist yet (lines 53-87). */
  function TransformFile(f: CsvFile, toDatetime: Value -> Option<Instant>): (out: FileOutcome)
    ensures out.Skipped? <==> Polluant !in f.table.columns || Zas !in f.table.columns
  {
    if Polluant !in f.table.columns || Zas !in f.table.columns then Skipped
    else
      match CleanRows(f, toDatetime)
      case Err(e) => Failed(e)
      case Ok(rows) =>
        match Finish(f, rows)
        case Err(e) => Failed(e)
        case Ok(t) => Written(t)
  }

  // ---------------------------------------------------------------- what a written file holds

  /** `t` is what finishing `cleaned` gives: the kept columns, one output row per sorted key. */
  predicate FinishedFrom(f: CsvFile, cleaned: seq<Row>, t: Table)
  {
    && t.columns == ColsToKeep
    && |t.rows| == |SortedKeys(cleaned)|
    && forall i :: 0 <= i < |t.rows| ==> t.rows[i] == OutputRow(f, cleaned, SortedKeys(cleaned)[i])
  }

  /** The row of the output table that stands for key `k`. */
  lemma OutputRowKey(f: CsvFile, rows: seq<Row>, k: Key)
    ensures var row := OutputRow(f, rows, k);
      KeyOf(row) == Some(k) && Get(row, Unite) == RepairUnit(AggregateCell(f, rows, k, Unite))
  {
  }

  /** The table a written file holds: one row per sorted key of the cleaned rows, which are all clean. */
  lemma WrittenRows(f: CsvFile, toDatetime: Value -> Option<Instant>)
    requires TransformFile(f, toDatetime).Written?
    ensures CleanRows(f, toDatetime).Ok?
    ensures var t := TransformFile(f, toDatetime).table;
      var cleaned := CleanRows(f, toDatetime).value;
      && FinishedFrom(f, cleaned, t)
      && forall r :: r in cleaned ==> Clean(r)
  {
    FinishedRows(f, CleanRows(f, toDatetime).value);
    CleanRowsAreClean(f, toDatetime);
  }

  /** Row `i` of a written file: its key is the i-th sorted key, and it is clean. */
  lemma WrittenRow(f: CsvFile, toDatetime: Value -> Option<Instant>, i: nat)
    requires TransformFile(f, toDatetime).Written?
    requires i < |TransformFile(f, toDatetime).table.rows|
    ensures CleanRows(f, toDatetime).Ok?
    ensures var row := TransformFile(f, toDatetime).table.rows[i];
      var cleaned := CleanRows(f, toDatetime).value;
      && i < |SortedKeys(cleaned)|
      && KeyOf(row) == Some(SortedKeys(cleaned)[i])
      && row.Keys == set c | c in ColsToKeep
      && !IsExcluded(row) && CanonicalCode(row) && Get(row, DateDeFin).Some? && Get(row, DateDeFin).value.Day?
      && (Get(row, Unite).Some? ==> Get(row, Unite).value.Str? && 'Â' !in Get(row, Unite).value.s)
  {
    WrittenRows(f, toDatetime);
    FinishedRow(f, CleanRows(f, toDatetime).value, TransformFile(f, toDatetime).table, i);
  }

  lemma FinishedRow(f: CsvFile, cleaned: seq<Row>, t: Table, i: nat)
    requires FinishedFrom(f, cleaned, t) && forall r :: r in cleaned ==> Clean(r)
    requires i < |t.rows|
    ensures var row := t.rows[i];
      && KeyOf(row) == Some(SortedKeys(cleaned)[i])
      && row.Keys == set c | c in ColsToKeep
      && !IsExcluded(row) && CanonicalCode(row) && Get(row, DateDeFin).Some? && Get(row, DateDeFin).value.Day?
      && (Get(row, Unite).Some? ==> Get(row, Unite).value.Str? && 'Â' !in Get(row, Unite).value.s)
  {
    var ks := SortedKeys(cleaned);
    assert ks[i] in ks;
    OutputRowClean(f, cleaned, ks[i]);
  }

  /** The output row of a key the clean rows have carries that key and the clean rows' guarantees. */
  lemma OutputRowClean(f: CsvFile, cleaned: seq<Row>, k: Key)
    requires forall r :: r in cleaned ==> Clean(r)
    requires exists r :: r in cleaned && KeyOf(r) == Some(k)
    ensures var row := OutputRow(f, cleaned, k);
      && KeyOf(row) == Some(k)
      && row.Keys == set c | c in ColsToKeep
      && !IsExcluded(row) && CanonicalCode(row) && Get(row, DateDeFin).Some? && Get(row, DateDeFin).value.Day?
      && (Get(row, Unite).Some? ==> Get(row, Unite).value.Str? && 'Â' !in Get(row, Unite).value.s)
  {
    OutputRowKey(f, cleaned, k);
    var r :| r in cleaned && KeyOf(r) == Some(k);
    assert Clean(r);
  }

  /**
   * A written file has exactly the columns ColsToKeep, in order, and every row a cell
   * for each; every pollutant is kept and rewritten, every end date a calendar day, and
   * no unit contains 'Â'.
   */
  lemma WrittenFileShape(f: CsvFile, toDatetime: Value -> Option<Instant>)
    requires TransformFile(f, toDatetime).Written?
    ensures var t := TransformFile(f, toDatetime).table;
      && t.columns == ColsToKeep
      && WellFormed(t)
      && (forall row :: row in t.rows ==> !IsExcluded(row) && CanonicalCode(row) && Get(row, DateDeFin).Some? && Get(row, DateDeFin).value.Day?)
      && (forall row :: row in t.rows && Get(row, Unite).Some? ==> Get(row, Unite).value.Str? && 'Â' !in Get(row, Unite).value.s)
  {
    WrittenRows(f, toDatetime);
    FinishedShape(f, CleanRows(f, toDatetime).value, TransformFile(f, toDatetime).table);
  }

  lemma FinishedShape(f: CsvFile, cleaned: seq<Row>, t: Table)
    requires FinishedFrom(f, cleaned, t) && forall r :: r in cleaned ==> Clean(r)
    ensures WellFormed(t)
    ensures forall row :: row in t.rows ==> !IsExcluded(row) && CanonicalCode(row) && Get(row, DateDeFin).Some? && Get(row, DateDeFin).value.Day?
    ensures forall row :: row in t.rows && Get(row, Unite).Some? ==> Get(row, Unite).value.Str? && 'Â' !in Get(row, Unite).value.s
  {
    forall row | row in t.rows
      ensures row.Keys == set c | c in ColsToKeep
      ensures !IsExcluded(row) && CanonicalCode(row) && Get(row, DateDeFin).Some? && Get(row, DateDeFin).value.Day?
      ensures Get(row, Unite).Some? ==> Get(row, Unite).value.Str? && 'Â' !in Get(row, Unite).value.s
    {
      var i :| 0 <= i < |t.rows| && t.rows[i] == row;
      FinishedRow(f, cleaned, t, i);
    }
    ColsToKeepDistinct();
  }

  lemma ColsToKeepDistinct()
    ensures Distinct(ColsToKeep)
  {
  }

  /**
   * A written file holds exactly one row per distinct (end date, pollutant, zone) of the
   * cleaned rows, in ascending key order.
   */
  lemma WrittenFileOneRowPerKey(f: CsvFile, toDatetime: Value -> Option<Instant>)
    requires TransformFile(f, toDatetime).Written?
    ensures CleanRows(f, toDatetime).Ok?
    ensures var t := TransformFile(f, toDatetime).table;
      var cleaned := CleanRows(f, toDatetime).value;
      && (forall i :: 0 <= i < |t.rows| ==> KeyOf(t.rows[i]).Some?)
      && (forall i, j :: 0 <= i < j < |t.rows| ==> KeyLess(KeyOf(t.rows[i]).value, KeyOf(t.rows[j]).value))
      && (forall k :: (exists i :: 0 <= i < |t.rows| && KeyOf(t.rows[i]) == Some(k))
                      <==> (exists r :: r in cleaned && KeyOf(r) == Some(k)))
  {
    WrittenRows(f, toDatetime);
    FinishedKeys(f, CleanRows(f, toDatetime).value, TransformFile(f, toDatetime).table);
  }

  lemma FinishedKeys(f: CsvFile, cleaned: seq<Row>, t: Table)
    requires FinishedFrom(f, cleaned, t)
    ensures forall i :: 0 <= i < |t.rows| ==> KeyOf(t.rows[i]).Some?
    ensures forall i, j :: 0 <= i < j < |t.rows| ==> KeyLess(KeyOf(t.rows[i]).value, KeyOf(t.rows[j]).value)
    ensures forall k :: (exists i :: 0 <= i < |t.rows| && KeyOf(t.rows[i]) == Some(k))
                        <==> (exists r :: r in cleaned && KeyOf(r) == Some(k))
  {
    var ks := SortedKeys(cleaned);
    forall i | 0 <= i < |t.rows|
      ensures KeyOf(t.rows[i]) == Some(ks[i])
    {
      OutputRowKey(f, cleaned, ks[i]);
    }
    forall k | exists r :: r in cleaned && KeyOf(r) == Some(k)
      ensures exists i :: 0 <= i < |t.rows| && KeyOf(t.rows[i]) == Some(k)
    {
      assert k in ks;
      var i :| 0 <= i < |ks| && ks[i] == k;
      assert KeyOf(t.rows[i]) == Some(k);
    }
    forall k | exists i :: 0 <= i < |t.rows| && KeyOf(t.rows[i]) == Some(k)
      ensures exists r :: r in cleaned && KeyOf(r) == Some(k)
    {
      var i :| 0 <= i < |t.rows| && KeyOf(t.rows[i]) == Some(k);
      assert ks[i] in ks;
    }
  }

  /** A kept cell of a written row is custom_agg over the column within the row's group. */
  lemma WrittenCell(f: CsvFile, toDatetime: Value -> Option<Instant>, i: nat, c: string)
    requires TransformFile(f, toDatetime).Written?
    requires i < |TransformFile(f, toDatetime).table.rows|
    requires c in ColsToKeep && c !in GroupColumns && c != Unite
    ensures CleanRows(f, toDatetime).Ok?
    ensures var row := TransformFile(f, toDatetime).table.rows[i];
      var cleaned := CleanRows(f, toDatetime).value;
      && KeyOf(row).Some?
      && Group(cleaned, KeyOf(row).value) != []
      && Get(row, c) == CustomAgg(KindOf(f, c), ColumnOf(Group(cleaned, KeyOf(row).value), c))
  {
    WrittenRows(f, toDatetime);
    FinishedCell(f, CleanRows(f, toDatetime).value, TransformFile(f, toDatetime).table, i, c);
  }

  lemma FinishedCell(f: CsvFile, cleaned: seq<Row>, t: Table, i: nat, c: string)
    requires FinishedFrom(f, cleaned, t) && i < |t.rows|
    requires c in ColsToKeep && c !in GroupColumns && c != Unite
    ensures var row := t.rows[i];
      && KeyOf(row).Some?
      && Group(cleaned, KeyOf(row).value) != []
      && Get(row, c) == CustomAgg(KindOf(f, c), ColumnOf(Group(cleaned, KeyOf(row).value), c))
  {
    var k := SortedKeys(cleaned)[i];
    OutputRowKey(f, cleaned, k);
    assert k in SortedKeys(cleaned);
    GroupOfSortedKey(cleaned, k);
    PlainOutputCell(f, cleaned, k, c);
  }

  lemma PlainOutputCell(f: CsvFile, rows: seq<Row>, k: Key, c: string)
    requires c in ColsToKeep && c !in GroupColumns && c != Unite
    ensures Get(OutputRow(f, rows, k), c) == CustomAgg(KindOf(f, c), ColumnOf(Group(rows, k), c))
  {
  }

  /**
   * One input row as cleaning leaves it: None when a filter drops it, otherwise the row
   * with its pollutant rewritten and its end date cut to the day. (An unreadable end
   * date fails the whole file instead: see TruncateEndDates.)
   */
  function CleanRow(r: Row, toDatetime: Value -> Option<Instant>): (cleaned: Option<Row>)
    ensures cleaned.Some? ==> Clean(cleaned.value)
    ensures cleaned.Some? ==> forall c :: c != Polluant && c != DateDeFin ==> Get(cleaned.value, c) == Get(r, c)
  {
    ReplacedCodeCanonical(r);
    var p := ReplacePollutant(r);
    if IsExcluded(p) || !Complete(p) then None
    else
      match toDatetime(Get(p, DateDeFin).value)
      case Some(at) => Some(TruncateEndDate(p, at))
      case None => None
  }

  /** CleanRow as a function value. */
  function Cleaning(toDatetime: Value -> Option<Instant>): Row -> Option<Row>
  {
    r => CleanRow(r, toDatetime)
  }

  /** The input rows cleaning keeps, cleaned, in file order. */
  function CleanedRows(rows: seq<Row>, toDatetime: Value -> Option<Instant>): seq<Row>
  {
    FilterMap(rows, Cleaning(toDatetime))
  }

  /**
   * Cleaning works row by row: when it succeeds, the cleaned rows are those CleanRow keeps,
   * in file order.
   */
  lemma {:induction false} CleaningRowByRow(rows: seq<Row>, toDatetime: Value -> Option<Instant>)
    requires TruncateEndDates(DropIncomplete(DropExcluded(ReplacePollutants(rows))), toDatetime).Ok?
    ensures TruncateEndDates(DropIncomplete(DropExcluded(ReplacePollutants(rows))), toDatetime).value
      == CleanedRows(rows, toDatetime)
  {
    if rows != [] {
      var h := FiltersOnFront(rows);
      var t := DropIncomplete(DropExcluded(ReplacePollutants(rows[1..])));
      TruncateEndDatesFront(h, t, toDatetime);
      var front := FilterMapFront(rows, Cleaning(toDatetime));
      CleaningRowByRow(rows[1..], toDatetime);
    }
  }

  /** Truncating the end dates of at most one row followed by others: that row's outcome, then theirs. */
  lemma TruncateEndDatesFront(h: seq<Row>, t: seq<Row>, toDatetime: Value -> Option<Instant>)
    requires |h| <= 1
    requires forall row :: row in h + t ==> Get(row, DateDeFin).Some?
    requires TruncateEndDates(h + t, toDatetime).Ok?
    ensures h != [] ==> toDatetime(Get(h[0], DateDeFin).value).Some?
    ensures TruncateEndDates(t, toDatetime).Ok?
    ensures TruncateEndDates(h + t, toDatetime).value
      == (if h == [] then [] else [TruncateEndDate(h[0], toDatetime(Get(h[0], DateDeFin).value).value)])
         + TruncateEndDates(t, toDatetime).value
  {
    if h == [] {
      assert h + t == t;
    } else {
      assert (h + t)[0] == h[0] && (h + t)[1..] == t;
    }
  }

  /** The filters applied to a non-empty input: the first row's outcome, then the rest's. */
  lemma FiltersOnFront(rows: seq<Row>) returns (h: seq<Row>)
    requires rows != []
    ensures var p := ReplacePollutant(rows[0]);
      h == (if !IsExcluded(p) && Complete(p) then [p] else [])
    ensures DropIncomplete(DropExcluded(ReplacePollutants(rows)))
      == h + DropIncomplete(DropExcluded(ReplacePollutants(rows[1..])))
  {
    var p := ReplacePollutant(rows[0]);
    ReplacePollutantsFront(rows);
    DropExcludedInOrder([p], ReplacePollutants(rows[1..]));
    var e := DropExcluded([p]);
    DropIncompleteInOrder(e, DropExcluded(ReplacePollutants(rows[1..])));
    assert [p][1..] == [];
    h := DropIncomplete(e);
  }

  lemma ReplacePollutantsFront(rows: seq<Row>)
    requires rows != []
    ensures ReplacePollutants(rows) == [ReplacePollutant(rows[0])] + ReplacePollutants(rows[1..])
  {
  }

  /** Whether cleaning keeps the input row, under key `k`. */
  predicate KeptWithKey(r: Row, toDatetime: Value -> Option<Instant>, k: Key)
  {
    CleanRow(r, toDatetime).Some? && KeyOf(CleanRow(r, toDatetime).value) == Some(k)
  }

  /** The first row of a group of the cleaned rows comes from the first input row cleaning keeps under that key. */
  lemma FirstOfGroup(rows: seq<Row>, toDatetime: Value -> Option<Instant>, k: Key) returns (j: nat)
    requires Group(CleanedRows(rows, toDatetime), k) != []
    ensures j < |rows| && KeptWithKey(rows[j], toDatetime, k)
    ensures Group(CleanedRows(rows, toDatetime), k)[0] == CleanRow(rows[j], toDatetime).value
    ensures forall i :: 0 <= i < j ==> !KeptWithKey(rows[i], toDatetime, k)
  {
    j := FirstKept(rows, Cleaning(toDatetime), HasKey(k));
  }

  /**
   * A group's cells in column `c` are all strings exactly when every input row that
   * cleaning keeps under its key holds a string there.
   */
  lemma GroupAllText(rows: seq<Row>, toDatetime: Value -> Option<Instant>, k: Key, c: string)
    requires c != Polluant && c != DateDeFin
    ensures AllText(ColumnOf(Group(CleanedRows(rows, toDatetime), k), c))
      <==> forall j :: 0 <= j < |rows| && KeptWithKey(rows[j], toDatetime, k) ==> IsText(Get(rows[j], c))
  {
    var g := Group(CleanedRows(rows, toDatetime), k);
    if AllText(ColumnOf(g, c)) {
      forall j | 0 <= j < |rows| && KeptWithKey(rows[j], toDatetime, k)
        ensures IsText(Get(rows[j], c))
      {
        GroupCellOfRow(rows, toDatetime, k, c, j);
      }
    }
    if forall j :: 0 <= j < |rows| && KeptWithKey(rows[j], toDatetime, k) ==> IsText(Get(rows[j], c)) {
      forall i | 0 <= i < |g|
        ensures IsText(ColumnOf(g, c)[i])
      {
        var j := RowOfGroupCell(rows, toDatetime, k, c, i);
      }
    }
  }

  /** Every input row cleaning keeps under `k` gives a cell of the group's column. */
  lemma GroupCellOfRow(rows: seq<Row>, toDatetime: Value -> Option<Instant>, k: Key, c: string, j: nat)
    requires c != Polluant && c != DateDeFin
    requires j < |rows| && KeptWithKey(rows[j], toDatetime, k)
    ensures Get(rows[j], c) in ColumnOf(Group(CleanedRows(rows, toDatetime), k), c)
  {
    var g := Group(CleanedRows(rows, toDatetime), k);
    var x := CleanRow(rows[j], toDatetime).value;
    assert Cleaning(toDatetime)(rows[j]) == Some(x);
    assert x in g;
    var i :| 0 <= i < |g| && g[i] == x;
    assert ColumnOf(g, c)[i] == Get(rows[j], c);
  }

  /** Every cell of the group's column comes from an input row cleaning keeps under `k`. */
  lemma RowOfGroupCell(rows: seq<Row>, toDatetime: Value -> Option<Instant>, k: Key, c: string, i: nat) returns (j: nat)
    requires c != Polluant && c != DateDeFin
    requires i < |Group(CleanedRows(rows, toDatetime), k)|
    ensures j < |rows| && KeptWithKey(rows[j], toDatetime, k)
    ensures ColumnOf(Group(CleanedRows(rows, toDatetime), k), c)[i] == Get(rows[j], c)
  {
    var g := Group(CleanedRows(rows, toDatetime), k);
    assert g[i] in g;
    j :| 0 <= j < |rows| && Cleaning(toDatetime)(rows[j]) == Some(g[i]);
  }

  /**
   * A text-typed kept column holds the cell of the first input row, in file order, that
   * cleaning keeps under the written row's key, when every such row holds a string
   * there; otherwise it is NaN.
   */
  lemma WrittenTextCellIsFirst(f: CsvFile, toDatetime: Value -> Option<Instant>, i: nat, c: string) returns (j: nat)
    requires TransformFile(f, toDatetime).Written?
    requires i < |TransformFile(f, toDatetime).table.rows|
    requires c in ColsToKeep && c !in GroupColumns && c != Unite
    requires KindOf(f, c) == TextKind
    ensures var row := TransformFile(f, toDatetime).table.rows[i];
      var rows := f.table.rows;
      && KeyOf(row).Some?
      && j < |rows| && KeptWithKey(rows[j], toDatetime, KeyOf(row).value)
      && (forall i' :: 0 <= i' < j ==> !KeptWithKey(rows[i'], toDatetime, KeyOf(row).value))
      && Get(row, c) == if forall j' :: 0 <= j' < |rows| && KeptWithKey(rows[j'], toDatetime, KeyOf(row).value) ==> IsText(Get(rows[j'], c))
                        then Get(rows[j], c) else None
  {
    WrittenCell(f, toDatetime, i, c);
    var row := TransformFile(f, toDatetime).table.rows[i];
    var k := KeyOf(row).value;
    CleanedInFileOrder(f, toDatetime);
    j := FirstOfGroup(f.table.rows, toDatetime, k);
    GroupAllText(f.table.rows, toDatetime, k, c);
    var g := Group(CleanedRows(f.table.rows, toDatetime), k);
    assert ColumnOf(g, c)[0] == Get(CleanRow(f.table.rows[j], toDatetime).value, c);
  }

  /** Successful cleaning of a file yields CleanedRows of its rows. */
  lemma CleanedInFileOrder(f: CsvFile, toDatetime: Value -> Option<Instant>)
    requires CleanRows(f, toDatetime).Ok?
    ensures CleanRows(f, toDatetime).value == CleanedRows(f.table.rows, toDatetime)
  {
    CleaningRowByRow(f.table.rows, toDatetime);
  }

  /**
   * A number-typed kept column holds a number between the group's least and greatest
   * number, and is NaN exactly when the group has no number in that column.
   */
  lemma WrittenNumericCellIsMean(f: CsvFile, toDatetime: Value -> Option<Instant>, i: nat, c: string, lo: real, hi: real)
    requires TransformFile(f, toDatetime).Written?
    requires i < |TransformFile(f, toDatetime).table.rows|
    requires c in ColsToKeep && c !in GroupColumns && c != Unite
    requires KindOf(f, c) == NumericKind
    requires CleanRows(f, toDatetime).Ok?
    requires var cleaned := CleanRows(f, toDatetime).value;
      forall r :: r in cleaned && KeyOf(r) == KeyOf(TransformFile(f, toDatetime).table.rows[i]) && Get(r, c).Some? && Get(r, c).value.Num?
        ==> lo <= Get(r, c).value.x <= hi
    ensures var row := TransformFile(f, toDatetime).table.rows[i];
      var cleaned := CleanRows(f, toDatetime).value;
      && (Get(row, c).None? <==> forall r :: r in cleaned && KeyOf(r) == KeyOf(row) ==> !(Get(r, c).Some? && Get(r, c).value.Num?))
      && (Get(row, c).Some? ==> Get(row, c).value.Num? && lo <= Get(row, c).value.x <= hi)
  {
    WrittenCell(f, toDatetime, i, c);
    var row := TransformFile(f, toDatetime).table.rows[i];
    GroupNumericAggregate(CleanRows(f, toDatetime).value, KeyOf(row).value, c, lo, hi);
  }

  /** custom_agg on a numeric column of a group, in terms of the group's rows. */
  lemma GroupNumericAggregate(rows: seq<Row>, k: Key, c: string, lo: real, hi: real)
    requires forall r :: (r in rows && KeyOf(r) == Some(k) && Get(r, c).Some? && Get(r, c).value.Num?
      ==> lo <= Get(r, c).value.x <= hi)
    ensures var agg := CustomAgg(NumericKind, ColumnOf(Group(rows, k), c));
      && (agg.None? <==> forall r :: r in rows && KeyOf(r) == Some(k) ==> !(Get(r, c).Some? && Get(r, c).value.Num?))
      && (agg.Some? ==> agg.value.Num? && lo <= agg.value.x <= hi)
  {
    ColumnAggregate(Group(rows, k), c, lo, hi);
  }

  /** custom_agg on a numeric column of some rows: NaN exactly without a number, else between the bounds. */
  lemma ColumnAggregate(g: seq<Row>, c: string, lo: real, hi: real)
    requires forall r :: (r in g && Get(r, c).Some? && Get(r, c).value.Num? ==> lo <= Get(r, c).value.x <= hi)
    ensures var agg := CustomAgg(NumericKind, ColumnOf(g, c));
      && (agg.None? <==> forall r :: r in g ==> !(Get(r, c).Some? && Get(r, c).value.Num?))
      && (agg.Some? ==> agg.value.Num? && lo <= agg.value.x <= hi)
  {
    var cells := ColumnOf(g, c);
    ColumnBounds(g, c, lo, hi);
    ColumnHasNumber(g, c);
    if g != [] {
      NumericAggregateBetween(cells, lo, hi);
    }
  }

  lemma ColumnBounds(g: seq<Row>, c: string, lo: real, hi: real)
    requires forall r :: (r in g && Get(r, c).Some? && Get(r, c).value.Num? ==> lo <= Get(r, c).value.x <= hi)
    ensures forall x :: Some(Num(x)) in ColumnOf(g, c) ==> lo <= x <= hi
  {
    var cells := ColumnOf(g, c);
    forall x | Some(Num(x)) in cells ensures lo <= x <= hi {
      var j :| 0 <= j < |cells| && cells[j] == Some(Num(x));
      assert g[j] in g;
    }
  }

  lemma ColumnHasNumber(g: seq<Row>, c: string)
    ensures Numbers(ColumnOf(g, c)) == [] <==> forall r :: r in g ==> !(Get(r, c).Some? && Get(r, c).value.Num?)
  {
    var cells := ColumnOf(g, c);
    if Numbers(cells) == [] {
      forall r | r in g ensures !(Get(r, c).Some? && Get(r, c).value.Num?) {
        var j :| 0 <= j < |g| && g[j] == r;
        assert cells[j] == Get(r, c);
      }
    } else {
      var x := Numbers(cells)[0];
      assert x in Numbers(cells);
      var j :| 0 <= j < |cells| && cells[j] == Some(Num(x));
      assert g[j] in g;
    }
  }

  // ---------------------------------------------------------------- the folder loop

  /** A directory entry that is processed: a `.csv` that is not itself an output. */
  predicate IsInputName(name: string)
  {
    EndsWith(name, ".csv") && !EndsWith(name, "_output.csv")
  }

  /** `file_name[:-4] + '_output.csv'` */
  function OutputName(name: string): (out: string)
    requires EndsWith(name, ".csv")
    ensures EndsWith(out, "_output.csv")
  {
    var out := name[..|name| - 4] + "_output.csv";
    assert out[|out| - 11..] == "_output.csv";
    out
  }

  /** An output name is never selected as an input, so a rerun never treats outputs as inputs. */
  lemma OutputNeverInput(name: string)
    requires EndsWith(name, ".csv")
    ensures !IsInputName(OutputName(name))
  {
  }

  /** Different inputs get different outputs. */
  lemma OutputNameInjective(a: string, b: string)
    requires EndsWith(a, ".csv") && EndsWith(b, ".csv") && a != b
    ensures OutputName(a) != OutputName(b)
  {
  }

  /** The output folder: file name to the table written under it. */
  type Folder = map<string, Table>

  datatype RunResult = RunResult(folder: Folder, error: Option<ProcessError>)

  /** What treating each file of the input folder gives (lines 53-87). */
  function Treatment(contents: string -> CsvFile, toDatetime: Value -> Option<Instant>): string -> FileOutcome
  {
    name => TransformFile(contents(name), toDatetime)
  }

  /**
   * process_csv_files over a directory listing: skip non-inputs and inputs whose
   * output exists, write the others, and stop at the first exception. `outcome` is
   * what treating a file gives; the lemmas below hold whatever the treatment.
   */
  function Run(listing: seq<string>, folder: Folder, outcome: string -> FileOutcome): RunResult
  {
    if listing == [] then RunResult(folder, None)
    else
      var name := listing[0];
      if !IsInputName(name) || OutputName(name) in folder then Run(listing[1..], folder, outcome)
      else
        match outcome(name)
        case Written(t) => Run(listing[1..], folder[OutputName(name) := t], outcome)
        case Skipped => Run(listing[1..], folder, outcome)
        case Failed(e) => RunResult(folder, Some(e))
  }

  /** The loop of process_csv_files, with its `continue` skips. */
  method ProcessCsvFiles(listing: seq<string>, existing: Folder, contents: string -> CsvFile,
                         toDatetime: Value -> Option<Instant>)
    returns (folder: Folder, error: Option<ProcessError>)
    ensures RunResult(folder, error) == Run(listing, existing, Treatment(contents, toDatetime))
  {
    ghost var outcome := Treatment(contents, toDatetime);
    folder, error := existing, None;
    var i := 0;
    while i < |listing|
      invariant 0 <= i <= |listing|
      invariant Run(listing[i..], folder, outcome) == Run(listing, existing, outcome)
    {
      var fileName := listing[i];
      assert listing[i..][1..] == listing[i + 1..];
      i := i + 1;
      if !(EndsWith(fileName, ".csv") && !EndsWith(fileName, "_output.csv")) {
        continue;
      }
      var outputFileName := fileName[..|fileName| - 4] + "_output.csv";
      if outputFileName in folder {
        continue;
      }
      var result := TransformFile(contents(fileName), toDatetime);
      assert result == outcome(fileName);
      match result {
        case Skipped =>
          continue;
        case Failed(e) =>
          error := Some(e);
          return;
        case Written(t) =>
          folder := folder[outputFileName := t];
      }
    }
    assert listing[i..] == [];
  }

  /** A run never removes or overwrites a file that was already in the output folder. */
  lemma {:induction false} RunKeepsExisting(listing: seq<string>, folder: Folder, outcome: string -> FileOutcome)
    ensures var out := Run(listing, folder, outcome).folder;
      forall n :: n in folder ==> n in out && out[n] == folder[n]
  {
    if listing != [] {
      var name := listing[0];
      if !IsInputName(name) || OutputName(name) in folder {
        RunKeepsExisting(listing[1..], folder, outcome);
      } else {
        match outcome(name)
        case Written(t) => RunKeepsExisting(listing[1..], folder[OutputName(name) := t], outcome);
        case Skipped => RunKeepsExisting(listing[1..], folder, outcome);
        case Failed(e) =>
      }
    }
  }

  /** The output names of the selected inputs of a listing. */
  function OutputsOf(listing: seq<string>): set<string>
  {
    set i | 0 <= i < |listing| && IsInputName(listing[i]) :: OutputName(listing[i])
  }

  /** Every file a run adds is the output name of a selected input of the listing. */
  lemma {:induction false} RunWritesOnlyOutputs(listing: seq<string>, folder: Folder, outcome: string -> FileOutcome)
    ensures Run(listing, folder, outcome).folder.Keys <= folder.Keys + OutputsOf(listing)
  {
    if listing != [] {
      var name := listing[0];
      var rest := listing[1..];
      assert OutputsOf(rest) <= OutputsOf(listing) by {
        forall n | n in OutputsOf(rest) ensures n in OutputsOf(listing) {
          var i :| 0 <= i < |rest| && IsInputName(rest[i]) && OutputName(rest[i]) == n;
          assert rest[i] == listing[i + 1];
        }
      }
      if !IsInputName(name) || OutputName(name) in folder {
        RunWritesOnlyOutputs(rest, folder, outcome);
      } else {
        match outcome(name)
        case Written(t) => RunWritesOnlyOutputs(rest, folder[OutputName(name) := t], outcome);
        case Skipped => RunWritesOnlyOutputs(rest, folder, outcome);
        case Failed(e) =>
      }
    }
  }

  /**
   * Reruns are idempotent: running again over the folder a run produced, with the
   * same input folder, writes nothing and stops at the same exception if there was one.
   */
  lemma {:induction false} RerunWritesNothing(listing: seq<string>, folder: Folder, outcome: string -> FileOutcome)
    ensures var first := Run(listing, folder, outcome);
      Run(listing, first.folder, outcome) == first
  {
    if listing != [] {
      var name := listing[0];
      var rest := listing[1..];
      var first := Run(listing, folder, outcome);
      if !IsInputName(name) {
        RerunWritesNothing(rest, folder, outcome);
      } else if OutputName(name) in folder {
        RerunWritesNothing(rest, folder, outcome);
        RunKeepsExisting(rest, folder, outcome);
      } else {
        match outcome(name)
        case Written(t) =>
          var next := folder[OutputName(name) := t];
          RerunWritesNothing(rest, next, outcome);
          RunKeepsExisting(rest, next, outcome);
        case Skipped =>
          RerunWritesNothing(rest, folder, outcome);
        case Failed(e) =>
      }
    }
  }

  /**
   * A run that raised nothing leaves an output for every selected input, unless that
   * input lacked the Polluant or Zas column.
   */
  lemma {:induction false} RunCoversInputs(listing: seq<string>, folder: Folder, outcome: string -> FileOutcome)
    requires Run(listing, folder, outcome).error.None?
    ensures forall i :: 0 <= i < |listing| && IsInputName(listing[i]) ==>
      OutputName(listing[i]) in Run(listing, folder, outcome).folder
      || outcome(listing[i]).Skipped?
  {
    if listing != [] {
      var name := listing[0];
      var rest := listing[1..];
      var next := if IsInputName(name) && OutputName(name) !in folder && outcome(name).Written?
                  then folder[OutputName(name) := outcome(name).table]
                  else folder;
      assert Run(listing, folder, outcome) == Run(rest, next, outcome);
      RunCoversInputs(rest, next, outcome);
      RunKeepsExisting(rest, next, outcome);
      forall i | 0 <= i < |listing| && IsInputName(listing[i])
        ensures OutputName(listing[i]) in Run(listing, folder, outcome).folder
          || outcome(listing[i]).Skipped?
      {
        if i > 0 {
          assert listing[i] == rest[i - 1];
        }
      }
    }
  }
}
