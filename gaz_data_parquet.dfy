/**
 * The daily collector: CSVtoParquetProcessor reads the normalised per-file CSVs,
 * keeps the rows of the ZAG PARIS zone, stamps them with the file's date and the
 * processing time, and appends them to the combined parquet file without duplicates.
 * Folder listings, file contents and the clock are parameters.
 */
module GazDataParquet {
  import opened Wrappers
  import opened Text
  import opened Calendar
  import opened Frames
  import GazDataProcessor

  const ZasColumn := "zas"
  const ZagParis := "ZAG PARIS"
  const FileDateColumn := "file_date"
  const ProcessingDateColumn := "processing_date"

  /** The one file concatenate_and_save writes into the output folder. */
  const CombinedName := "ZAG_PARIS_combined_output.parquet"

  /** What makes process_files raise: a name with fewer than three `_`-fields, or a third field that is not a date. */
  datatype ParquetError = NameTooShort(name: string) | BadDate(field: string)

  // ---------------------------------------------------------------- column names

  /** `df.columns.str.strip().str.lower()`, position by position. */
  function NormalizedNames(columns: seq<string>): seq<string>
  {
    seq(|columns|, i requires 0 <= i < |columns| => NormalizeName(columns[i]))
  }

  /**
   * A row re-keyed by the normalised names `norm` of `columns`: each name takes the cell
   * of the first column that normalises to it.
   */
  function RenameRow(r: Row, columns: seq<string>, norm: seq<string>, names: seq<string>): (w: Row)
    requires |norm| == |columns|
    requires forall n :: n in names ==> n in norm
    ensures w.Keys == set n | n in names
  {
    map n | n in names :: Get(r, columns[IndexOf(norm, n)])
  }

  /** The frame with its column names stripped and lower-cased. */
  function NormalizeColumns(t: Table): (r: Table)
    ensures WellFormed(r)
    ensures |r.rows| == |t.rows|
  {
    var norm := NormalizedNames(t.columns);
    var names := Dedup(norm);
    Table(names, seq(|t.rows|, i requires 0 <= i < |t.rows| => RenameRow(t.rows[i], t.columns, norm, names)))
  }

  /**
   * Every original column is found under its normalised name, no other name appears,
   * and every name is normal: normalising it again changes nothing.
   */
  lemma NormalizeColumnsNames(t: Table)
    ensures var r := NormalizeColumns(t);
      && (forall i :: 0 <= i < |t.columns| ==> NormalizeName(t.columns[i]) in r.columns)
      && (forall n :: n in r.columns ==> n in NormalizedNames(t.columns))
      && (forall n :: n in r.columns ==> NormalizeName(n) == n)
  {
    var norm := NormalizedNames(t.columns);
    forall i | 0 <= i < |t.columns| ensures NormalizeName(t.columns[i]) in NormalizeColumns(t).columns {
      assert norm[i] in norm;
    }
    forall n | n in NormalizeColumns(t).columns ensures NormalizeName(n) == n {
      NormalizedColumnsAreNormal(t, n);
    }
  }

  /** The normalised names are normal: normalising them again changes nothing. */
  lemma NormalizedColumnsAreNormal(t: Table, n: string)
    requires n in NormalizeColumns(t).columns
    ensures NormalizeName(n) == n
  {
    var i :| 0 <= i < |t.columns| && NormalizedNames(t.columns)[i] == n;
    NormalizeNameIdempotent(t.columns[i]);
  }

  /**
   * A column whose normalised name no earlier column shares keeps its cells under
   * that name.
   */
  lemma NormalizedCell(t: Table, i: nat, j: nat)
    requires i < |t.rows| && j < |t.columns|
    requires forall k :: 0 <= k < j ==> NormalizedNames(t.columns)[k] != NormalizedNames(t.columns)[j]
    ensures Get(NormalizeColumns(t).rows[i], NormalizedNames(t.columns)[j]) == Get(t.rows[i], t.columns[j])
  {
    var norm := NormalizedNames(t.columns);
    var names := Dedup(norm);
    var n := norm[j];
    assert n in norm;
    var first := IndexOf(norm, n);
    assert first == j;
    var row := NormalizeColumns(t).rows[i];
    assert row == RenameRow(t.rows[i], t.columns, norm, names);
    assert n in names;
  }

  /** Normalising the columns of a frame twice is normalising them once. */
  lemma NormalizeColumnsIdempotent(t: Table)
    ensures NormalizeColumns(NormalizeColumns(t)) == NormalizeColumns(t)
  {
    var r := NormalizeColumns(t);
    NormalNames(t);
    DedupOfDistinct(r.columns);
    var r2 := NormalizeColumns(r);
    assert r2.columns == r.columns;
    forall i | 0 <= i < |r.rows| ensures r2.rows[i] == r.rows[i] {
      assert r.rows[i] in r.rows;
      RenamedNormalRow(r.rows[i], r.columns);
    }
  }

  lemma NormalNames(t: Table)
    ensures NormalizedNames(NormalizeColumns(t).columns) == NormalizeColumns(t).columns
  {
    var r := NormalizeColumns(t);
    var norm := NormalizedNames(r.columns);
    forall k | 0 <= k < |r.columns| ensures norm[k] == r.columns[k] {
      assert r.columns[k] in r.columns;
      NormalizedColumnsAreNormal(t, r.columns[k]);
    }
  }

  /** A row whose keys are exactly the distinct `columns` is unchanged by renaming them to themselves. */
  lemma RenamedNormalRow(row: Row, columns: seq<string>)
    requires Distinct(columns) && row.Keys == set c | c in columns
    ensures RenameRow(row, columns, columns, columns) == row
  {
    var w := RenameRow(row, columns, columns, columns);
    forall n | n in columns ensures w[n] == row[n] {
      var first := IndexOf(columns, n);
    }
  }

  // ---------------------------------------------------------------- one input file

  /** `df['zas'] == 'ZAG PARIS'`: a missing or non-text cell never matches. */
  predicate AtZagParis(r: Row)
  {
    Get(r, ZasColumn) == Some(Str(ZagParis))
  }

  /** `df[df['zas'] == 'ZAG PARIS']`: the matching rows, in their order. */
  function KeepZagParis(rows: seq<Row>): (kept: seq<Row>)
    ensures forall r :: r in kept <==> r in rows && AtZagParis(r)
    ensures |kept| <= |rows|
  {
    Filter(rows, AtZagParis)
  }

  /** The boolean mask keeps the matching rows in their order and as often as they occur. */
  lemma KeepZagParisInOrder(a: seq<Row>, b: seq<Row>)
    ensures KeepZagParis(a + b) == KeepZagParis(a) + KeepZagParis(b)
    ensures forall r :: multiset(KeepZagParis(a))[r] == if AtZagParis(r) then multiset(a)[r] else 0
  {
    FilterAppend(a, b, AtZagParis);
    FilterCount(a, AtZagParis);
  }

  /** `datetime.strptime(field, '%Y-%m-%d')` as a cell: midnight of that day. */
  function Midnight(d: Date): Value
    requires Valid(d)
  {
    Stamp(Instant(DateToDay(d), 0))
  }

  /** One row with `file_date` and `processing_date` set. */
  function Stamped(r: Row, fileDate: Value, stamp: string): Row
  {
    r[FileDateColumn := Some(fileDate)][ProcessingDateColumn := Some(Str(stamp))]
  }

  /** A column list with `c` appended unless already there: what `df.loc[:, c] = v` does to the columns. */
  function WithColumn(columns: seq<string>, c: string): (r: seq<string>)
    ensures c in r && forall x :: x in columns ==> x in r
    ensures forall x :: x in r ==> x in columns || x == c
    ensures Distinct(columns) ==> Distinct(r)
  {
    if c in columns then columns else columns + [c]
  }

  /** The two `df.loc[:, …] = …` assignments: both columns hold the same value in every row. */
  function AddDates(t: Table, fileDate: Value, stamp: string): (r: Table)
    ensures |r.rows| == |t.rows|
    ensures FileDateColumn in r.columns && ProcessingDateColumn in r.columns
    ensures forall c :: c in r.columns <==> c in t.columns || c == FileDateColumn || c == ProcessingDateColumn
    ensures forall i :: 0 <= i < |t.rows| ==> r.rows[i] == Stamped(t.rows[i], fileDate, stamp)
    ensures WellFormed(t) ==> WellFormed(r)
  {
    var columns := WithColumn(WithColumn(t.columns, FileDateColumn), ProcessingDateColumn);
    Table(columns, seq(|t.rows|, i requires 0 <= i < |t.rows| => Stamped(t.rows[i], fileDate, stamp)))
  }

  /**
   * The body of process_files' loop for one name of the input folder and the frame read
   * from it: Ok(None) when the file is not a CSV, has no `zas` column or no ZAG PARIS row;
   * an error when the name has no third `_`-field or that field is not a date.
   */
  function FileStep(name: string, t: Table, stamp: string): Result<Option<Table>, ParquetError>
  {
    if !EndsWith(name, ".csv") then Ok(None)
    else
      var df := NormalizeColumns(t);
      var fields := Split(name, '_');
      if |fields| < 3 then Err(NameTooShort(name))
      else
        match ParseIsoDate(fields[2])
        case None => Err(BadDate(fields[2]))
        case Some(d) =>
          if ZasColumn !in df.columns then Ok(None)
          else
            var kept := KeepZagParis(df.rows);
            if kept == [] then Ok(None)
            else Ok(Some(AddDates(Table(df.columns, kept), Midnight(d), stamp)))
  }

  /** The date a well-formed input name carries in its third `_`-field. */
  predicate DatedName(name: string)
  {
    var fields := Split(name, '_');
    |fields| >= 3 && ParseIsoDate(fields[2]).Some?
  }

  function NameDate(name: string): (d: Date)
    requires DatedName(name)
    ensures Valid(d)
  {
    ParseIsoDate(Split(name, '_')[2]).value
  }

  /** A CSV file makes process_files raise exactly when its name carries no date; its contents play no part. */
  lemma FileStepFails(name: string, t: Table, stamp: string)
    ensures FileStep(name, t, stamp).Err? <==> EndsWith(name, ".csv") && !DatedName(name)
  {
  }

  /** A file is passed over exactly when it is not a CSV, or has no `zas` column, or no row of ZAG PARIS. */
  lemma FileStepSkips(name: string, t: Table, stamp: string)
    requires !(EndsWith(name, ".csv") && !DatedName(name))
    ensures FileStep(name, t, stamp) == Ok(None) <==>
      !EndsWith(name, ".csv") || ZasColumn !in NormalizeColumns(t).columns
      || forall r :: r in NormalizeColumns(t).rows ==> !AtZagParis(r)
  {
    if EndsWith(name, ".csv") && ZasColumn in NormalizeColumns(t).columns {
      var kept := KeepZagParis(NormalizeColumns(t).rows);
      if kept != [] {
        assert kept[0] in kept;
      }
    }
  }

  /**
   * A frame taken from a file: its rows are exactly the file's ZAG PARIS rows, each with
   * `file_date` set to midnight of the date in the file's name and `processing_date` to
   * the run's timestamp; there is at least one, and every row is of ZAG PARIS.
   */
  lemma FileStepFrame(name: string, t: Table, stamp: string, f: Table)
    requires FileStep(name, t, stamp) == Ok(Some(f))
    ensures EndsWith(name, ".csv") && DatedName(name)
    ensures WellFormed(f) && |f.rows| >= 1
    ensures ZasColumn in f.columns && FileDateColumn in f.columns && ProcessingDateColumn in f.columns
    ensures forall r :: r in f.rows <==>
      exists r0 :: r0 in NormalizeColumns(t).rows && AtZagParis(r0) && r == Stamped(r0, Midnight(NameDate(name)), stamp)
    ensures forall r :: r in f.rows ==>
      && AtZagParis(r)
      && Get(r, FileDateColumn) == Some(Midnight(NameDate(name)))
      && Get(r, ProcessingDateColumn) == Some(Str(stamp))
  {
    var df := NormalizeColumns(t);
    var kept := KeepZagParis(df.rows);
    var v := Midnight(NameDate(name));
    assert f == AddDates(Table(df.columns, kept), v, stamp);
    assert WellFormed(Table(df.columns, kept));
    StampedRows(kept, df.columns, v, stamp);
  }

  /** The rows of a frame after AddDates are its rows, each stamped. */
  lemma StampedRows(rows: seq<Row>, columns: seq<string>, v: Value, stamp: string)
    ensures var f := AddDates(Table(columns, rows), v, stamp);
      && (forall r :: r in f.rows <==> exists r0 :: r0 in rows && r == Stamped(r0, v, stamp))
      && (forall r :: r in f.rows ==> Get(r, FileDateColumn) == Some(v) && Get(r, ProcessingDateColumn) == Some(Str(stamp)))
  {
    var f := AddDates(Table(columns, rows), v, stamp);
    forall r ensures r in f.rows <==> exists r0 :: r0 in rows && r == Stamped(r0, v, stamp) {
      if r in f.rows {
        var i :| 0 <= i < |f.rows| && f.rows[i] == r;
        assert rows[i] in rows;
      }
      if exists r0 :: r0 in rows && r == Stamped(r0, v, stamp) {
        var r0 :| r0 in rows && r == Stamped(r0, v, stamp);
        var i :| 0 <= i < |rows| && rows[i] == r0;
        assert f.rows[i] == r;
      }
    }
  }

  // ---------------------------------------------------------------- the whole input folder

  /** The frames process_files appends, in listing order, and the error it stops at, if any. */
  datatype Extraction = Extraction(frames: seq<Table>, error: Option<ParquetError>)

  type Step = Result<Option<Table>, ParquetError>

  /** The outcome of each name of the listing of the input folder, in listing order. */
  function Steps(listing: seq<string>, contents: string -> Table, stamp: string): (steps: seq<Step>)
    ensures |steps| == |listing|
  {
    if listing == [] then [] else [FileStep(listing[0], contents(listing[0]), stamp)] + Steps(listing[1..], contents, stamp)
  }

  lemma {:induction false} StepAt(listing: seq<string>, contents: string -> Table, stamp: string, j: nat)
    requires j < |listing|
    ensures Steps(listing, contents, stamp)[j] == FileStep(listing[j], contents(listing[j]), stamp)
  {
    if j > 0 {
      StepAt(listing[1..], contents, stamp, j - 1);
    }
  }

  /** process_files' loop over the outcomes: append each frame, stop at the first error. */
  function Collect(steps: seq<Step>): (x: Extraction)
    ensures |x.frames| <= |steps|
  {
    if steps == [] then Extraction([], None)
    else
      match steps[0]
      case Err(e) => Extraction([], Some(e))
      case Ok(None) => Collect(steps[1..])
      case Ok(Some(f)) =>
        var rest := Collect(steps[1..]);
        Extraction([f] + rest.frames, rest.error)
  }

  /** One step of the loop: what the outcome of the `i`-th file does to the rest of the collection. */
  lemma CollectOne(steps: seq<Step>, i: nat)
    requires i < |steps|
    ensures steps[i].Err? ==> Collect(steps[i..]) == Extraction([], Some(steps[i].error))
    ensures steps[i] == Ok(None) ==> Collect(steps[i..]) == Collect(steps[i + 1..])
    ensures steps[i].Ok? && steps[i].value.Some? ==>
      Collect(steps[i..]) == Extraction([steps[i].value.value] + Collect(steps[i + 1..]).frames, Collect(steps[i + 1..]).error)
  {
    assert steps[i..][1..] == steps[i + 1..];
  }

  /** Every appended frame is the frame of some file of the listing. */
  lemma {:induction false} CollectedFromSteps(steps: seq<Step>, k: nat)
    requires k < |Collect(steps).frames|
    ensures exists j :: 0 <= j < |steps| && steps[j] == Ok(Some(Collect(steps).frames[k]))
  {
    var rest := Collect(steps[1..]);
    match steps[0]
    case Ok(None) =>
      CollectedFromSteps(steps[1..], k);
      var j :| 0 <= j < |steps[1..]| && steps[1..][j] == Ok(Some(rest.frames[k]));
      assert steps[j + 1] == steps[1..][j];
    case Ok(Some(f)) =>
      if k > 0 {
        CollectedFromSteps(steps[1..], k - 1);
        var j :| 0 <= j < |steps[1..]| && steps[1..][j] == Ok(Some(rest.frames[k - 1]));
        assert steps[j + 1] == steps[1..][j];
      }
  }

  /** The frame a file's outcome contributes: its frame when it yields one, nothing when it is skipped or raises. */
  function Yielded(step: Step): Option<Table>
  {
    if step.Ok? then step.value else None
  }

  /** How many files the loop gets through: the index of the first file that raises, or all of them. */
  function Reached(steps: seq<Step>): (e: nat)
    ensures e <= |steps|
    ensures forall i :: 0 <= i < e ==> steps[i].Ok?
    ensures e < |steps| ==> steps[e].Err?
  {
    if steps == [] || steps[0].Err? then 0
    else
      var e := 1 + Reached(steps[1..]);
      assert forall i :: 1 <= i < e ==> steps[i] == steps[1..][i - 1];
      e
  }

  /**
   * The frames the loop appends are those of the files before the first one that
   * raises: one per file that yields a frame, in listing order.
   */
  lemma {:induction false} CollectedInOrder(steps: seq<Step>)
    ensures Collect(steps).frames == FilterMap(steps[..Reached(steps)], Yielded)
  {
    if steps != [] && steps[0].Ok? {
      CollectedInOrder(steps[1..]);
      var e := Reached(steps);
      assert steps[..e][1..] == steps[1..][..e - 1];
      var h := FilterMapFront(steps[..e], Yielded);
    }
  }

  /** The loop stops with an error exactly when some file raises, and the error is that of the first such file. */
  lemma {:induction false} CollectFails(steps: seq<Step>)
    ensures Collect(steps).error.Some? <==> exists j :: 0 <= j < |steps| && steps[j].Err?
    ensures forall j :: (0 <= j < |steps| && steps[j].Err? && (forall i :: 0 <= i < j ==> steps[i].Ok?)
      ==> Collect(steps).error == Some(steps[j].error))
  {
    if steps != [] {
      CollectFails(steps[1..]);
      if exists j :: 0 <= j < |steps[1..]| && steps[1..][j].Err? {
        var j :| 0 <= j < |steps[1..]| && steps[1..][j].Err?;
        assert steps[j + 1] == steps[1..][j];
      }
      forall j | 0 <= j < |steps| && steps[j].Err? && (forall i :: 0 <= i < j ==> steps[i].Ok?)
        ensures Collect(steps).error == Some(steps[j].error)
      {
        if j > 0 {
          assert steps[0].Ok?;
          assert steps[1..][j - 1] == steps[j];
          forall i | 0 <= i < j - 1 ensures steps[1..][i].Ok? {
            assert steps[1..][i] == steps[i + 1];
          }
        }
      }
    }
  }

  /** Without an error, the frame of every file that yields one is appended. */
  lemma {:induction false} CollectKeepsFrames(steps: seq<Step>, j: nat)
    requires j < |steps| && steps[j].Ok? && steps[j].value.Some?
    requires Collect(steps).error.None?
    ensures steps[j].value.value in Collect(steps).frames
  {
    assert steps[0].Ok?;
    if j > 0 {
      assert steps[1..][j - 1] == steps[j];
      CollectKeepsFrames(steps[1..], j - 1);
    }
  }

  // ---------------------------------------------------------------- file names

  /** `datetime.now().strftime('%Y%m%d')` for the instant `now`. */
  function Today(now: Instant): string
  {
    FormatCompactDate(DayToDate(now.day))
  }

  /** check_today_files_exist's answer: some name of the output folder contains today's date. */
  predicate TodayMarked(listing: seq<string>, now: Instant)
  {
    exists i :: 0 <= i < |listing| && Contains(listing[i], Today(now))
  }

  /**
   * The combined file's own name never contains a date, so on an output folder holding
   * only that file the guard of process_files never fires.
   */
  lemma CombinedNameNeverMarked(now: Instant)
    ensures !TodayMarked([CombinedName], now)
  {
    TodayStartsWithYear(now);
    CombinedNameHasNoDigit();
    NotContainedAtAll(CombinedName, Today(now));
  }

  lemma TodayStartsWithYear(now: Instant)
    ensures |Today(now)| >= 1 && (IsDigit(Today(now)[0]) || Today(now)[0] == '-')
  {
    var d := DayToDate(now.day);
    assert Today(now) == YearDigits(d.year) + (Digits(d.month, 2) + Digits(d.day, 2));
  }

  lemma CombinedNameHasNoDigit()
    ensures forall k :: 0 <= k < |CombinedName| ==> !IsDigit(CombinedName[k]) && CombinedName[k] != '-'
  {
  }

  /** A string none of whose characters starts `sub` does not contain `sub`. */
  lemma NotContainedAtAll(s: string, sub: string)
    requires |sub| >= 1
    requires forall k :: 0 <= k < |s| ==> s[k] != sub[0]
    ensures !Contains(s, sub)
  {
    ContainsAt(s, sub);
  }

  /**
   * The names the CSV normaliser writes for inputs named `<a>_<b>_<YYYY-MM-DD>.csv` are
   * CSV names whose third `_`-field is that date, so process_files reads the date back.
   */
  lemma NormalizedOutputIsDated(a: string, b: string, d: Date)
    requires '_' !in a && '_' !in b
    requires Valid(d) && 1 <= d.year <= 9999
    ensures var input := a + "_" + b + "_" + FormatIsoDate(d) + ".csv";
      && EndsWith(input, ".csv")
      && var output := GazDataProcessor.OutputName(input);
      && EndsWith(output, ".csv") && DatedName(output) && NameDate(output) == d
  {
    var iso := FormatIsoDate(d);
    IsoDateHasNoUnderscore(d);
    OutputNameOfDated(a, b, iso);
    ParseFormatIsoDate(d);
    DatedOutputName(a, b, iso);
  }

  /** `a_b_c_output.csv` is a CSV name whose date is the one `c` spells. */
  lemma DatedOutputName(a: string, b: string, c: string)
    requires '_' !in a && '_' !in b && '_' !in c
    requires ParseIsoDate(c).Some?
    ensures var output := a + ['_'] + (b + ['_'] + (c + ['_'] + "output.csv"));
      && EndsWith(output, ".csv") && DatedName(output) && NameDate(output) == ParseIsoDate(c).value
  {
    var output := a + ['_'] + (b + ['_'] + (c + ['_'] + "output.csv"));
    ThirdField(a, b, c, "output.csv");
    assert output[|output| - 4..] == ".csv";
  }

  lemma IsoDateHasNoUnderscore(d: Date)
    requires Valid(d) && 1 <= d.year <= 9999
    ensures '_' !in FormatIsoDate(d)
  {
    var iso := FormatIsoDate(d);
    IsoDateShape(d);
    forall k | 0 <= k < |iso| ensures iso[k] != '_' {
      if k != 4 && k != 7 {
        assert IsDigit(iso[k]);
      }
    }
  }

  lemma OutputNameOfDated(a: string, b: string, iso: string)
    ensures var input := a + "_" + b + "_" + iso + ".csv";
      EndsWith(input, ".csv")
      && GazDataProcessor.OutputName(input) == a + ['_'] + (b + ['_'] + (iso + ['_'] + "output.csv"))
  {
    var input := a + "_" + b + "_" + iso + ".csv";
    assert input[|input| - 4..] == ".csv";
    assert input[..|input| - 4] == a + "_" + b + "_" + iso;
  }

  /** The third `_`-field of `a_b_c_rest` is `c` when a, b and c hold no `_`. */
  lemma ThirdField(a: string, b: string, c: string, rest: string)
    requires '_' !in a && '_' !in b && '_' !in c
    ensures |Split(a + ['_'] + (b + ['_'] + (c + ['_'] + rest)), '_')| >= 3
    ensures Split(a + ['_'] + (b + ['_'] + (c + ['_'] + rest)), '_')[2] == c
  {
    SplitFirstField(c, '_', rest);
    SplitFirstField(b, '_', c + ['_'] + rest);
    SplitFirstField(a, '_', b + ['_'] + (c + ['_'] + rest));
  }

  // ---------------------------------------------------------------- the combined file

  /** `df.drop_duplicates().reset_index(drop=True)`: the first of equal rows, in order. */
  function DropDuplicates(t: Table): (r: Table)
    ensures r.columns == t.columns && Distinct(r.rows)
    ensures forall row :: row in r.rows <==> row in t.rows
    ensures forall i, j :: 0 <= i < j < |r.rows| ==> IndexOf(t.rows, r.rows[i]) < IndexOf(t.rows, r.rows[j])
  {
    DedupFirstOccurrences(t.rows);
    Table(t.columns, Dedup(t.rows))
  }

  /**
   * The frame concatenate_and_save writes for the concatenated batch: the batch itself
   * when no combined file exists, otherwise the prior file followed by the batch, without
   * duplicate rows.
   */
  function Combine(existing: Option<Table>, batch: Table): Table
  {
    match existing
    case None => batch
    case Some(prior) => DropDuplicates(Concat([prior, batch]))
  }

  /**
   * The written file has the columns of the existing file and of the batch and no other;
   * those of the existing file come first and in their order.
   */
  lemma CombineColumns(existing: Option<Table>, batch: Table)
    ensures var saved := Combine(existing, batch);
      && (forall c :: c in saved.columns <==> c in batch.columns || (existing.Some? && c in existing.value.columns))
      && (existing.Some? && Distinct(existing.value.columns) ==>
            |existing.value.columns| <= |saved.columns| && saved.columns[..|existing.value.columns|] == existing.value.columns)
  {
    if existing.Some? {
      AllColumnsOfTwo(existing.value, batch);
    }
  }

  /** No row of the existing file is lost: each is kept, widened to the new columns. */
  lemma CombineKeepsOld(prior: Table, batch: Table, r: Row)
    requires r in prior.rows
    ensures Widen(r, Combine(Some(prior), batch).columns) in Combine(Some(prior), batch).rows
  {
    var all := Concat([prior, batch]);
    AllRowsOfFrames([prior, batch], 0);
    assert [prior, batch][..0] == [];
    var i :| 0 <= i < |prior.rows| && prior.rows[i] == r;
    assert AllRows([prior, batch])[i] == r;
    assert all.rows[i] in all.rows;
  }

  /**
   * The existing file's rows open the written file, in their order, each widened to the
   * new columns: when they hold no repeated row, drop_duplicates removes none of them.
   */
  lemma CombineKeepsPriorOrder(prior: Table, batch: Table)
    requires WellFormed(prior)
    ensures var saved := Combine(Some(prior), batch);
      Distinct(prior.rows) ==>
        (|prior.rows| <= |saved.rows| && forall i :: 0 <= i < |prior.rows| ==> saved.rows[i] == Widen(prior.rows[i], saved.columns))
  {
    var all := Concat([prior, batch]);
    if Distinct(prior.rows) {
      ConcatPriorRows(prior, batch);
      forall c | c in prior.columns
        ensures c in all.columns
      {
        assert c in [prior, batch][0].columns;
      }
      PriorRowsLead(prior, all.rows, all.columns);
    }
  }

  /** Rows that start with the widened distinct rows of a frame keep that start when de-duplicated. */
  lemma PriorRowsLead(prior: Table, rows: seq<Row>, columns: seq<string>)
    requires WellFormed(prior) && Distinct(prior.rows)
    requires forall c :: c in prior.columns ==> c in columns
    requires |prior.rows| <= |rows|
    requires forall i :: 0 <= i < |prior.rows| ==> rows[i] == Widen(prior.rows[i], columns)
    ensures |prior.rows| <= |Dedup(rows)| && forall i :: 0 <= i < |prior.rows| ==> Dedup(rows)[i] == rows[i]
  {
    var n := |prior.rows|;
    WidenedDistinct(prior.rows, rows[..n], columns, set c | c in prior.columns);
    assert rows == rows[..n] + rows[n..];
    DedupKeepsDistinctPrefix(rows[..n], rows[n..]);
    forall i | 0 <= i < n
      ensures Dedup(rows)[i] == rows[i]
    {
      assert Dedup(rows)[i] == Dedup(rows)[..n][i];
    }
  }

  /** The concatenation starts with the first frame's rows, widened. */
  lemma ConcatPriorRows(prior: Table, batch: Table)
    ensures var all := Concat([prior, batch]);
      |prior.rows| <= |all.rows| && forall i :: 0 <= i < |prior.rows| ==> all.rows[i] == Widen(prior.rows[i], all.columns)
  {
    AllRowsOfFrames([prior, batch], 0);
    assert [prior, batch][..0] == [];
    assert AllRows([prior, batch])[..|prior.rows|] == prior.rows;
    forall i | 0 <= i < |prior.rows|
      ensures AllRows([prior, batch])[i] == prior.rows[i]
    {
      assert AllRows([prior, batch])[..|prior.rows|][i] == prior.rows[i];
    }
  }

  /** Rows without repeats that share their columns stay without repeats when widened to more columns. */
  lemma WidenedDistinct(rows: seq<Row>, wide: seq<Row>, columns: seq<string>, keys: set<string>)
    requires Distinct(rows)
    requires |wide| == |rows| && forall i :: 0 <= i < |rows| ==> wide[i] == Widen(rows[i], columns)
    requires forall r :: r in rows ==> r.Keys == keys
    requires forall c :: c in keys ==> c in columns
    ensures Distinct(wide)
  {
    forall i, j | 0 <= i < j < |wide|
      ensures wide[i] != wide[j]
    {
      assert rows[i] in rows && rows[j] in rows;
      if wide[i] == wide[j] {
        WidenInjective(rows[i], rows[j], columns);
      }
    }
  }

  /** Widening to columns that hold every cell of two rows with the same columns loses nothing. */
  lemma WidenInjective(a: Row, b: Row, columns: seq<string>)
    requires a.Keys == b.Keys
    requires forall c :: c in a ==> c in columns
    requires Widen(a, columns) == Widen(b, columns)
    ensures a == b
  {
    forall c | c in a
      ensures a[c] == b[c]
    {
      assert Widen(a, columns)[c] == Get(a, c);
    }
  }

  /** No row of the batch is lost: each is kept, widened to the new columns. */
  lemma CombineKeepsBatchRow(prior: Table, batch: Table, i: nat)
    requires i < |batch.rows|
    ensures Widen(batch.rows[i], Combine(Some(prior), batch).columns) in Combine(Some(prior), batch).rows
  {
    var all := Concat([prior, batch]);
    AllRowsOfFrames([prior, batch], 1);
    assert [prior, batch][..1] == [prior];
    assert AllRows([prior]) == prior.rows;
    assert AllRows([prior, batch])[|prior.rows| + i] == batch.rows[i];
    assert all.rows[|prior.rows| + i] in all.rows;
  }

  /**
   * Saving the same batch again onto the file it produced leaves the file as it is:
   * drop_duplicates removes every repeated row.
   */
  lemma CombineTwice(prior: Table, batch: Table)
    requires Distinct(prior.columns) && Distinct(batch.columns)
    ensures Combine(Some(Combine(Some(prior), batch)), batch) == Combine(Some(prior), batch)
  {
    var saved := Combine(Some(prior), batch);
    CombinedColumnsDistinct(prior, batch);
    CombineColumns(Some(prior), batch);
    var again := Concat([saved, batch]);
    ConcatAgainColumns(saved, batch);
    var widened := seq(|batch.rows|, i requires 0 <= i < |batch.rows| => Widen(batch.rows[i], saved.columns));
    forall i | 0 <= i < |saved.rows| ensures Widen(saved.rows[i], saved.columns) == saved.rows[i] {
      SavedRowIsWide(prior, batch, i);
    }
    ConcatAgainRows(saved, batch);
    forall x | x in widened ensures x in saved.rows {
      var i :| 0 <= i < |widened| && widened[i] == x;
      CombineKeepsBatchRow(prior, batch, i);
    }
    DedupAbsorbs(saved.rows, widened);
  }

  lemma CombinedColumnsDistinct(prior: Table, batch: Table)
    requires Distinct(prior.columns) && Distinct(batch.columns)
    ensures Distinct(Combine(Some(prior), batch).columns)
  {
    AllColumnsOfTwo(prior, batch);
  }

  /** The columns of two frames concatenated: those of the first, then the new ones of the second. */
  lemma AllColumnsOfTwo(a: Table, b: Table)
    ensures AllColumns([a, b]) == UnionColumns(UnionColumns([], a.columns), b.columns)
    ensures Distinct(a.columns) ==> AllColumns([a, b]) == UnionColumns(a.columns, b.columns)
  {
    assert AllColumns([a]) == UnionColumns([], a.columns) by {
      assert [a][..0] == [];
    }
    assert [a, b][..1] == [a];
    if Distinct(a.columns) {
      UnionColumnsOfNone(a.columns);
    }
  }

  /** Concatenating a frame with one whose columns it already has keeps its columns. */
  lemma ConcatAgainColumns(saved: Table, batch: Table)
    requires Distinct(saved.columns)
    requires forall c :: c in batch.columns ==> c in saved.columns
    ensures Concat([saved, batch]).columns == saved.columns
  {
    AllColumnsOfTwo(saved, batch);
    UnionColumnsAbsorbs(saved.columns, batch.columns);
  }

  /** Concatenating a frame whose rows are already wide with the batch again gives its rows followed by the batch's rows, widened. */
  lemma ConcatAgainRows(saved: Table, batch: Table)
    requires Distinct(saved.columns)
    requires forall c :: c in batch.columns ==> c in saved.columns
    requires forall i :: 0 <= i < |saved.rows| ==> Widen(saved.rows[i], saved.columns) == saved.rows[i]
    ensures Concat([saved, batch]).rows
      == saved.rows + seq(|batch.rows|, i requires 0 <= i < |batch.rows| => Widen(batch.rows[i], saved.columns))
  {
    ConcatAgainColumns(saved, batch);
    assert [saved, batch][..1] == [saved];
    assert AllRows([saved]) == saved.rows by {
      assert [saved][..0] == [];
    }
    var all := AllRows([saved, batch]);
    assert all == saved.rows + batch.rows;
    var rows := Concat([saved, batch]).rows;
    var widened := seq(|batch.rows|, i requires 0 <= i < |batch.rows| => Widen(batch.rows[i], saved.columns));
    forall i | 0 <= i < |rows|
      ensures rows[i] == (saved.rows + widened)[i]
    {
      if i < |saved.rows| {
        assert all[i] == saved.rows[i];
      } else {
        assert all[i] == batch.rows[i - |saved.rows|];
      }
    }
  }

  /** Every row of a combined file has a cell for exactly its columns. */
  lemma SavedRowIsWide(prior: Table, batch: Table, i: nat)
    requires i < |Combine(Some(prior), batch).rows|
    ensures var saved := Combine(Some(prior), batch);
      Widen(saved.rows[i], saved.columns) == saved.rows[i]
  {
    var saved := Combine(Some(prior), batch);
    var all := Concat([prior, batch]);
    assert saved.rows[i] in all.rows;
  }

  /** No row of any frame of the batch is lost: each is in the written file, widened to its columns. */
  lemma SavedKeepsFrameRows(existing: Option<Table>, frames: seq<Table>, k: nat, i: nat)
    requires k < |frames| && WellFormed(frames[k]) && i < |frames[k].rows|
    ensures var saved := Combine(existing, Concat(frames));
      Widen(frames[k].rows[i], saved.columns) in saved.rows
  {
    var batch := Concat(frames);
    var r := frames[k].rows[i];
    var at := BatchRow(frames, k, i);
    if existing.Some? {
      CombineKeepsBatchRow(existing.value, batch, at);
      var saved := Combine(existing, batch);
      CombineColumns(existing, batch);
      assert r in frames[k].rows;
      forall c | c in r ensures c in batch.columns {
        assert c in frames[k].columns;
      }
      WidenTwice(r, batch.columns, saved.columns);
    } else {
      assert batch.rows[at] in batch.rows;
    }
  }

  /** Where the `i`-th row of the `k`-th frame lands in the concatenation. */
  lemma BatchRow(frames: seq<Table>, k: nat, i: nat) returns (at: nat)
    requires k < |frames| && i < |frames[k].rows|
    ensures at < |Concat(frames).rows| && Concat(frames).rows[at] == Widen(frames[k].rows[i], Concat(frames).columns)
  {
    AllRowsOfFrames(frames, k);
    at := |AllRows(frames[..k])| + i;
    assert AllRows(frames)[at] == frames[k].rows[i];
  }

  /** Appending the frames of a listing to well-formed frames keeps every frame well formed. */
  lemma ExtractedWellFormed(before: seq<Table>, listing: seq<string>, contents: string -> Table, stamp: string)
    requires forall g :: g in before ==> WellFormed(g)
    ensures forall g :: g in before + Collect(Steps(listing, contents, stamp)).frames ==> WellFormed(g)
  {
    var steps := Steps(listing, contents, stamp);
    var frames := Collect(steps).frames;
    forall k | 0 <= k < |frames| ensures WellFormed(frames[k]) {
      CollectedFromSteps(steps, k);
      var j :| 0 <= j < |steps| && steps[j] == Ok(Some(frames[k]));
      StepAt(listing, contents, stamp, j);
      FileStepWellFormed(listing[j], contents(listing[j]), stamp);
    }
  }

  /** A frame taken from a file is well formed. */
  lemma FileStepWellFormed(name: string, t: Table, stamp: string)
    ensures FileStep(name, t, stamp).Ok? && FileStep(name, t, stamp).value.Some? ==> WellFormed(FileStep(name, t, stamp).value.value)
  {
    if FileStep(name, t, stamp).Ok? && FileStep(name, t, stamp).value.Some? {
      FileStepFrame(name, t, stamp, FileStep(name, t, stamp).value.value);
    }
  }

  // ---------------------------------------------------------------- the processor

  /** CSVtoParquetProcessor: the two folders, the frames collected so far and the run's timestamp. */
  class CSVtoParquetProcessor {
    const inputFolder: string
    const outputFolder: string
    var dataframes: seq<Table>
    const currentTimestamp: string

    /** Every collected frame is well formed. */
    predicate Valid()
      reads this
    {
      forall f :: f in dataframes ==> WellFormed(f)
    }

    /** `__init__`: nothing collected yet; the timestamp is `now` as `%Y%m%d_%H%M%S`. */
    constructor(inputFolder: string, outputFolder: string, now: Instant)
      ensures this.inputFolder == inputFolder && this.outputFolder == outputFolder
      ensures dataframes == [] && currentTimestamp == FormatTimestamp(now)
      ensures Valid()
    {
      this.inputFolder := inputFolder;
      this.outputFolder := outputFolder;
      dataframes := [];
      currentTimestamp := FormatTimestamp(now);
    }

    /** check_today_files_exist over the listing of the output folder, at the instant `now`. */
    method CheckTodayFilesExist(outputListing: seq<string>, now: Instant) returns (found: bool)
      ensures found <==> TodayMarked(outputListing, now)
    {
      var today := Today(now);
      for i := 0 to |outputListing|
        invariant forall j :: 0 <= j < i ==> !Contains(outputListing[j], today)
      {
        if Contains(outputListing[i], today) {
          return true;
        }
      }
      return false;
    }

    /**
     * process_files: nothing happens when the output folder already holds a file of
     * today; otherwise the frame of each file of the input folder is appended in listing
     * order, up to the first file whose name raises.
     */
    method ProcessFiles(outputListing: seq<string>, now: Instant, inputListing: seq<string>, contents: string -> Table)
      returns (error: Option<ParquetError>)
      requires Valid()
      modifies this
      ensures Valid()
      ensures TodayMarked(outputListing, now) ==> dataframes == old(dataframes) && error.None?
      ensures !TodayMarked(outputListing, now) ==>
        var x := Collect(Steps(inputListing, contents, currentTimestamp));
        dataframes == old(dataframes) + x.frames && error == x.error
      ensures !TodayMarked(outputListing, now) ==>
        var steps := Steps(inputListing, contents, currentTimestamp);
        dataframes == old(dataframes) + FilterMap(steps[..Reached(steps)], Yielded)
    {
      CollectedInOrder(Steps(inputListing, contents, currentTimestamp));
      var found := CheckTodayFilesExist(outputListing, now);
      if found {
        return None;
      }
      error := ExtractFrames(inputListing, contents);
    }

    /**
     * The loop of process_files: every listed file in turn, stopping at the first file
     * whose name has no parsable date.
     */
    method ExtractFrames(inputListing: seq<string>, contents: string -> Table) returns (error: Option<ParquetError>)
      requires Valid()
      modifies this
      ensures Valid()
      ensures var x := Collect(Steps(inputListing, contents, currentTimestamp));
        dataframes == old(dataframes) + x.frames && error == x.error
    {
      ghost var steps := Steps(inputListing, contents, currentTimestamp);
      ExtractedWellFormed(old(dataframes), inputListing, contents, currentTimestamp);
      var i := 0;
      while i < |inputListing|
        invariant 0 <= i <= |inputListing|
        invariant old(dataframes) + Collect(steps).frames == dataframes + Collect(steps[i..]).frames
        invariant Collect(steps).error == Collect(steps[i..]).error
      {
        var step := ProcessFile(inputListing, contents, i);
        CollectOne(steps, i);
        match step {
          case Err(e) =>
            return Some(e);
          case Ok(None) =>
          case Ok(Some(f)) =>
            dataframes := dataframes + [f];
        }
        i := i + 1;
      }
      assert steps[i..] == [];
      return None;
    }

    /** The body of process_files' loop for the i-th listed file. */
    method ProcessFile(listing: seq<string>, contents: string -> Table, i: nat) returns (step: Step)
      requires i < |listing|
      ensures step == Steps(listing, contents, currentTimestamp)[i]
    {
      var name := listing[i];
      step := FileStep(name, contents(name), currentTimestamp);
      StepAt(listing, contents, currentTimestamp, i);
    }

    /**
     * concatenate_and_save: nothing is written when no frame was collected; otherwise the
     * combined file becomes the concatenated frames, appended to the existing combined
     * file without duplicates when there is one.
     */
    method ConcatenateAndSave(existing: Option<Table>) returns (written: Option<Table>)
      ensures written.None? <==> dataframes == []
      ensures written.Some? ==> written.value == Combine(existing, Concat(dataframes))
    {
      if dataframes == [] {
        return None;
      }
      var combined := Concat(dataframes);
      if existing.Some? {
        combined := DropDuplicates(Concat([existing.value, combined]));
      }
      return Some(combined);
    }
  }
}
