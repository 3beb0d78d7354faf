# Air-quality pipeline, modelled in Dafny

This project models the data-handling core of a small air-quality forecasting system.
The system has four parts:

- **CSV normaliser** (`GazDataProcessor.process_csv_files`). It cleans every raw pollutant export of a folder and writes `<name>_output.csv`. Cleaning means:
  - rewriting pollutant codes and dropping excluded pollutants;
  - dropping incomplete rows and truncating end dates to days;
  - grouping by (end date, pollutant, zone) with `custom_agg`;
  - repairing unit labels and keeping a fixed list of columns.
- **Paris collector** (`CSVtoParquetProcessor`). It skips the run when today's files already exist. Otherwise it:
  - normalises column names;
  - reads each file's date from its name;
  - keeps the `ZAG PARIS` rows and stamps them;
  - appends them to the combined parquet file without duplicates.
- **Series shaping** (`run_model_and_forecast`). It concatenates the historical and new rows and sorts them by end date. It averages duplicate days and regularises to one entry per calendar day. It then builds the JSON output: metrics, historical entries, in-sample predictions and forecast entries.
- **Forecast endpoint** (`GET /forecast/`). It validates the option, maps it to 1, 2, 4 or 7 days and builds the index of forecast dates from tomorrow. It answers with the option, the metrics and a chart.

How the pieces are represented:

| Concern | Representation |
|---|---|
| Tables and rows | A `Table` has a column list and rows. A row maps column names to cells; a cell of `None` is NaN. See module `Frames`. |
| Days | Integers counted from 1970-01-01. Module `Calendar` converts them to civil dates and back, and formats and parses `%Y-%m-%d`, `%Y%m%d` and `%Y%m%d_%H%M%S`. |
| String primitives | Python's string operations are in module `Text`. |
| Sort order of groupby keys | Module `Ordering`. |
| Everything the code reads from outside | Parameters. This covers directory listings, file contents, what exists in the output folder, the clock, pandas' timestamp parser, the ARIMA model's predictions and forecast, `np.sqrt` and `acf`. |

The collector is a class whose `dataframes` list its methods update. The normaliser's loop is a method proved equal to a recursive specification, `Run`. The series shaping and the endpoint are functions.

## Model

| member | source | states |
|---|---|---|
| GazDataProcessor.NumericAggregateBetween | dags/src/gaz_data_processor.py:28-34 | custom_agg on a numeric column is NaN exactly when the group has no number, and otherwise a number between the group's least and greatest number |
| GazDataProcessor.MeanBetween | dags/src/gaz_data_processor.py:32 | the mean of a non-empty list of numbers lies between any lower and upper bound of its elements |
| GazDataProcessor.CanonicalPollutantIdempotent | dags/src/gaz_data_processor.py:61 | the rewrite never yields a code it rewrites, leaves every other code unchanged, and applying it twice is applying it once |
| GazDataProcessor.ReplacePollutants | dags/src/gaz_data_processor.py:61 | the rows keep their number, order and columns; a text pollutant becomes its canonical code; every other cell, and a pollutant that is not text, stays as it was |
| GazDataProcessor.DropExcluded | dags/src/gaz_data_processor.py:64 | a row survives exactly when it was there and its pollutant is not C6H6, SO2 or CO |
| GazDataProcessor.DropExcludedInOrder | dags/src/gaz_data_processor.py:64 | the mask distributes over concatenation, so surviving rows keep their order; each survives as often as it occurred, an excluded one never |
| GazDataProcessor.DropIncomplete | dags/src/gaz_data_processor.py:67-70 | a row survives exactly when it was there and has a value in each of the six columns of interest |
| GazDataProcessor.DropIncompleteInOrder | dags/src/gaz_data_processor.py:70 | dropna distributes over concatenation, so complete rows keep their order; each survives as often as it occurred, an incomplete one never |
| GazDataProcessor.FirstMissing | dags/src/gaz_data_processor.py:70 | none exactly when every wanted column is present, otherwise a missing wanted column |
| GazDataProcessor.TruncateEndDates | dags/src/gaz_data_processor.py:73 | succeeds exactly when every end date parses, keeps the rows, and replaces each end date by the calendar day of its timestamp |
| GazDataProcessor.CleanRows | dags/src/gaz_data_processor.py:61-73 | a file lacking a column of interest fails with a missing-column error |
| GazDataProcessor.CleanRowsAreClean | dags/src/gaz_data_processor.py:61-73 | every surviving row is complete, has a rewritten, non-excluded pollutant and a calendar-day end date |
| GazDataProcessor.CleanRow | dags/src/gaz_data_processor.py:61-73 | a row that cleaning keeps comes out clean, with every cell other than the pollutant and the end date unchanged |
| GazDataProcessor.CleaningRowByRow | dags/src/gaz_data_processor.py:61-73 | when the end dates all parse, the cleaned rows are exactly what CleanRow keeps of each input row, in file order |
| GazDataProcessor.SortedKeys | dags/src/gaz_data_processor.py:77 | the groups' keys are strictly ascending, and a key appears exactly when some row with a complete key has it |
| GazDataProcessor.Group | dags/src/gaz_data_processor.py:77 | a group holds exactly the rows with its key |
| GazDataProcessor.GroupInOrder | dags/src/gaz_data_processor.py:77 | grouping distributes over concatenation, so a group keeps its rows in order; each row of the key is in it as often as it occurred |
| GazDataProcessor.GroupBy | dags/src/gaz_data_processor.py:77 | one aggregated row per distinct key; the key columns come first |
| GazDataProcessor.DropColumns | dags/src/gaz_data_processor.py:80 | the three named columns leave the column list and every row; the rows keep their order |
| GazDataProcessor.RepairUnit | dags/src/gaz_data_processor.py:81 | a repaired unit label is a string without 'Â' |
| GazDataProcessor.RepairUnits | dags/src/gaz_data_processor.py:81 | only the unit cell of each row changes, and it becomes its repaired label |
| GazDataProcessor.SelectColumns | dags/src/gaz_data_processor.py:84-87 | fails exactly when a wanted column is absent; otherwise the columns are exactly the wanted ones in that order, with rows narrowed to them |
| GazDataProcessor.Finish | dags/src/gaz_data_processor.py:77-87 | a finished table has exactly cols_to_keep as columns and one row per sorted key |
| GazDataProcessor.FinishedRows | dags/src/gaz_data_processor.py:77-87 | row i of a finished table is the output row of the i-th sorted key |
| GazDataProcessor.TransformFile | dags/src/gaz_data_processor.py:53-87 | a file is skipped without output exactly when it lacks the Polluant or the Zas column |
| GazDataProcessor.WrittenRows | dags/src/gaz_data_processor.py:53-90 | a written table holds one row per sorted key of the cleaned rows, and the cleaned rows are all clean |
| GazDataProcessor.WrittenRow | dags/src/gaz_data_processor.py:53-90 | row i of a written table carries the i-th sorted key and is clean |
| GazDataProcessor.WrittenFileShape | dags/src/gaz_data_processor.py:61-90 | a written file has exactly cols_to_keep, in order, in every row. No pollutant is excluded or unrewritten, every end date is a calendar day, and no unit contains 'Â' |
| GazDataProcessor.WrittenFileOneRowPerKey | dags/src/gaz_data_processor.py:77 | a written file has exactly one row per distinct (end date, pollutant, zone) of the cleaned rows, in ascending key order |
| GazDataProcessor.WrittenCell | dags/src/gaz_data_processor.py:28-34 | a kept non-key cell is custom_agg of that column over the row's group |
| GazDataProcessor.WrittenTextCellIsFirst | dags/src/gaz_data_processor.py:29-30 | a text kept column holds the cell of the first input row, in file order, that cleaning keeps under the written row's key, when every such row holds a string there; otherwise NaN |
| GazDataProcessor.WrittenNumericCellIsMean | dags/src/gaz_data_processor.py:31-32 | a numeric kept column is NaN exactly when the group has no number there, and otherwise lies between the group's bounds |
| GazDataProcessor.OutputName | dags/src/gaz_data_processor.py:46 | every output name ends with `_output.csv` |
| GazDataProcessor.OutputNeverInput | dags/src/gaz_data_processor.py:41-46 | an output name is never selected as an input |
| GazDataProcessor.OutputNameInjective | dags/src/gaz_data_processor.py:46 | different inputs get different output names |
| GazDataProcessor.ProcessCsvFiles | dags/src/gaz_data_processor.py:39-90 | the loop over the listing writes the output folder and raises the error that the recursive specification Run gives |
| GazDataProcessor.RunKeepsExisting | dags/src/gaz_data_processor.py:45-50 | a run never removes or overwrites a file already in the output folder |
| GazDataProcessor.RunWritesOnlyOutputs | dags/src/gaz_data_processor.py:41-47 | every file a run adds is the output name of a selected input |
| GazDataProcessor.RerunWritesNothing | dags/src/gaz_data_processor.py:45-50 | a second run over the folder the first produced changes nothing and ends the same way |
| GazDataProcessor.RunCoversInputs | dags/src/gaz_data_processor.py:39-90 | after a run without exception, each selected input has its output, unless it lacked Polluant or Zas |
| Ordering.KeyLessTransitive | dags/src/gaz_data_processor.py:77 | the groupby key order is transitive |
| Ordering.KeyLessTotal | dags/src/gaz_data_processor.py:77 | any two distinct keys are ordered one way or the other |
| GazDataParquet.CSVtoParquetProcessor.constructor | dags/src/gaz_data_parquet.py:6-10 | no frames are collected yet; the timestamp is `now` as `%Y%m%d_%H%M%S` |
| GazDataParquet.CSVtoParquetProcessor.CheckTodayFilesExist | dags/src/gaz_data_parquet.py:12-18 | true exactly when some name of the output folder contains today's `%Y%m%d` |
| GazDataParquet.CSVtoParquetProcessor.ProcessFiles | dags/src/gaz_data_parquet.py:20-54 | when today's files exist, `dataframes` is unchanged. Otherwise it grows by exactly one frame per file that yields one, in listing order, up to the first file whose name raises, and that error is returned |
| GazDataParquet.CSVtoParquetProcessor.ExtractFrames | dags/src/gaz_data_parquet.py:25-54 | the loop appends exactly the collected frames of the listing and never removes one |
| GazDataParquet.CSVtoParquetProcessor.ProcessFile | dags/src/gaz_data_parquet.py:26-54 | the body of the loop for one file gives that file's step |
| GazDataParquet.CSVtoParquetProcessor.ConcatenateAndSave | dags/src/gaz_data_parquet.py:56-75 | nothing is written exactly when no frame was collected; otherwise the collected frames are written, merged with the existing file |
| GazDataParquet.NormalizeColumns | dags/src/gaz_data_parquet.py:31 | the normalised frame is well formed and keeps the number of rows |
| GazDataParquet.NormalizeColumnsNames | dags/src/gaz_data_parquet.py:31 | every column appears under its normalised name, no other name appears, and every name is normal |
| GazDataParquet.NormalizedCell | dags/src/gaz_data_parquet.py:31 | a column whose normalised name no earlier column shares keeps its cells under that name |
| GazDataParquet.NormalizeColumnsIdempotent | dags/src/gaz_data_parquet.py:31 | normalising a frame's column names twice is normalising them once |
| Text.NormalizeNameIdempotent | dags/src/gaz_data_parquet.py:31 | `strip().lower()` applied twice is applied once |
| Text.SplitJoin | dags/src/gaz_data_parquet.py:37 | joining the fields of `split('_')` gives back the name |
| GazDataParquet.NameDate | dags/src/gaz_data_parquet.py:37-38 | the date read from a name's third `_`-field is a valid calendar date |
| GazDataParquet.FileStepFails | dags/src/gaz_data_parquet.py:26-38 | a file raises exactly when it is a CSV whose name has no third field that parses as `%Y-%m-%d`, whatever its contents |
| GazDataParquet.FileStepSkips | dags/src/gaz_data_parquet.py:26-54 | a file adds nothing exactly when it is not a CSV, has no `zas` column or has no ZAG PARIS row |
| GazDataParquet.KeepZagParis | dags/src/gaz_data_parquet.py:42 | a row is kept exactly when its `zas` is the text ZAG PARIS |
| GazDataParquet.KeepZagParisInOrder | dags/src/gaz_data_parquet.py:42 | the mask distributes over concatenation, so kept rows keep their order; each is kept as often as it occurred |
| GazDataParquet.AddDates | dags/src/gaz_data_parquet.py:46-47 | every row gets the same `file_date` and `processing_date`; the rows and the other columns stay |
| GazDataParquet.FileStepFrame | dags/src/gaz_data_parquet.py:37-50 | an appended frame holds exactly the file's ZAG PARIS rows. Each row carries midnight of the name's date and the run's timestamp, and there is at least one row |
| GazDataParquet.CollectFails | dags/src/gaz_data_parquet.py:25-54 | the loop stops with an error exactly when some file raises, and the error is that of the first such file |
| GazDataParquet.CollectedFromSteps | dags/src/gaz_data_parquet.py:25-54 | every appended frame is the frame of some file of the listing |
| GazDataParquet.CollectedInOrder | dags/src/gaz_data_parquet.py:25-50 | the appended frames are the frames of the files before the first one that raises: one per file that yields a frame, in listing order, and nothing else |
| GazDataParquet.CollectKeepsFrames | dags/src/gaz_data_parquet.py:25-54 | when nothing raises, every file that yields a frame has it appended |
| GazDataParquet.CombinedNameNeverMarked | dags/src/gaz_data_parquet.py:12-18 | the combined file's name never contains a date, so it alone never triggers the skip |
| GazDataParquet.NormalizedOutputIsDated | dags/src/gaz_data_parquet.py:37-38 | the normaliser's output for `<a>_<b>_<YYYY-MM-DD>.csv` is a CSV name whose date the collector reads back |
| GazDataParquet.DropDuplicates | dags/src/gaz_data_parquet.py:66 | the result keeps the columns and holds each row of the input exactly once, in the order of first occurrences |
| Frames.Dedup | dags/src/gaz_data_parquet.py:66 | the de-duplicated rows have no repeats and are exactly the rows of the input, no more and no fewer |
| Frames.DedupFirstOccurrences | dags/src/gaz_data_parquet.py:66 | the de-duplicated rows come in the order of their first occurrences in the input |
| Frames.AllRowsOfFrames | dags/src/gaz_data_parquet.py:58 | concatenation loses no row: every row of every frame is among the concatenated rows, in frame order |
| GazDataParquet.CombineColumns | dags/src/gaz_data_parquet.py:58-66 | the saved columns are those of the existing file and of the batch; the existing ones come first, in order |
| GazDataParquet.CombineKeepsOld | dags/src/gaz_data_parquet.py:64-66 | no previously saved row is lost |
| GazDataParquet.CombineKeepsPriorOrder | dags/src/gaz_data_parquet.py:64-66 | when the existing file has no repeated row, the saved file starts with all its rows, in their order, widened to the new columns |
| GazDataParquet.CombineKeepsBatchRow | dags/src/gaz_data_parquet.py:64-66 | no row of the batch is lost |
| GazDataParquet.SavedKeepsFrameRows | dags/src/gaz_data_parquet.py:58-69 | every row of every collected frame is in the saved file |
| GazDataParquet.CombineTwice | dags/src/gaz_data_parquet.py:64-66 | saving the same batch again leaves the file as it was |
| ForecastModel.SortByDay | dags/src/model.py:21 | the rows come out in non-decreasing day order and are a permutation of the input |
| ForecastModel.NumbersOnSort | dags/src/model.py:21 | the sort is stable: each day's values keep their row order |
| ForecastModel.SortedRows | dags/src/model.py:15-21 | the sorted series holds the rows of both inputs, in non-decreasing day order |
| ForecastModel.DaysOf | dags/src/model.py:30 | the days of the sorted rows are strictly increasing, and a day is there exactly when some row has it |
| ForecastModel.CollapseByDay | dags/src/model.py:30 | after the collapse each observed day appears once, days strictly increase, and each holds the mean of its values |
| ForecastModel.NumbersOnPermutation | dags/src/model.py:30 | rows in any order give each day the same count, sum and mean of values |
| ForecastModel.CollapseIgnoresOrder | dags/src/model.py:21-30 | any two day-sorted arrangements of the same rows collapse to the same series, whichever order pandas' sort leaves ties in |
| ForecastModel.ValueOn | dags/src/model.py:33 | a day the series lacks reads as missing |
| ForecastModel.RegularizeDaily | dags/src/model.py:33 | the regularised series has one entry per day from the first to the last; each day keeps its value and the other days are missing |
| ForecastModel.RegularizeKeepsValues | dags/src/model.py:33 | every entry the series had keeps its value after regularising |
| ForecastModel.SeriesSteps | dags/src/model.py:15-33 | the series is the regularised collapse of the sorted rows, and the collapse observes exactly the input days |
| ForecastModel.SeriesDaily | dags/src/model.py:15-33 | the series is empty exactly when there are no rows. Its days are consecutive, its first and last days are input days, and every input day is in it |
| ForecastModel.SeriesSpansRows | dags/src/model.py:15-33 | every input day lies between the series' first and last day |
| ForecastModel.SeriesValues | dags/src/model.py:15-33 | each input day holds the mean of that day's values across both inputs; every other day is missing |
| ForecastModel.Residuals | dags/src/model.py:72 | one residual per in-sample day |
| ForecastModel.MeanAbsoluteErrorZero | dags/src/model.py:63 | MAE is never negative, and is zero exactly when each prediction equals its actual value |
| ForecastModel.MeanSquaredErrorZero | dags/src/model.py:64 | MSE is never negative, and is zero when each prediction equals its actual value |
| ForecastModel.PercentageErrorDefined | dags/src/model.py:79 | MAPE is missing exactly when some actual value is zero, and is never negative otherwise |
| ForecastModel.Actuals | dags/src/model.py:62-64 | the window's actual values are taken in order. The metrics fail exactly when one is missing, and the error names a missing day of the window |
| ForecastModel.AssembleErrors | dags/src/model.py:43-64 | a run fails exactly when the series is shorter than seven days or a value of its last seven days is missing, and the error says which |
| ForecastModel.DataHistorical | dags/src/model.py:99-111 | the data list opens with one historical entry per series day, in order, carrying that day's value |
| ForecastModel.DataInSample | dags/src/model.py:104-111 | next come the seven in-sample predictions, dated like the last seven historical entries |
| ForecastModel.DataForecast | dags/src/model.py:48-53 | the list closes with the seven forecast values, dated consecutively from the day after the series ends |
| ForecastModel.AssembleData | dags/src/model.py:109-114 | a successful run has at least seven days and its data list is the layout above, of length days + 14 |
| ForecastModel.AssembleMetrics | dags/src/model.py:86-114 | the metrics have exactly MAE, MSE, RMSE, ACF1 and MAPE; the JSON carries the returned metrics; RMSE is the square root of MSE; MAE and MSE are present and non-negative; MAE is zero exactly when every prediction hits |
| ForecastModel.DataDates | dags/src/model.py:94-111 | on a gapless series the historical and forecast entries are dated as one unbroken run of days |
| ForecastModel.RunDates | dags/src/model.py:15-111 | a successful run dates its historical and forecast entries as one unbroken run from the earliest input day, and the first forecast day follows every input day |
| ForecastModel.IsoDayRoundTrip | dags/src/model.py:94-107 | an entry's `%Y-%m-%d` text parses back to its own day (years 1 to 9999) |
| ForecastModel.IsoDayInjective | dags/src/model.py:94-107 | distinct days have distinct `%Y-%m-%d` texts |
| Calendar.DayToDateInverse | dags/src/model.py:33 | day numbers and calendar dates correspond one to one |
| Calendar.DayToDateSuccessor | dags/src/model.py:33 | consecutive day numbers are consecutive calendar days |
| Calendar.ParseFormatIsoDate | dags/src/gaz_data_parquet.py:38 | parsing a formatted `%Y-%m-%d` date gives the date back |
| Calendar.TimestampStartsWithDay | dags/src/gaz_data_parquet.py:10-13 | the run timestamp begins with that day's `%Y%m%d` |
| ForecastApi.DaysFor | api/main.py:21-25 | an option outside 1..4 is a 400 "Invalid option provided"; options 1..4 give 1, 2, 4 or 7 days |
| ForecastApi.DaysIncreasing | api/main.py:25 | a larger option asks for more days, between one and seven |
| ForecastApi.DateRange | api/main.py:28 | `periods` instants one day apart from the start, at the start's time of day |
| ForecastApi.ForecastIndex | api/main.py:28 | exactly `days` instants, the i-th at tomorrow + i at the current time of day |
| ForecastApi.Forecast | api/main.py:19-46 | fails with 400 exactly when the option is invalid. Otherwise it echoes the option and the metrics, and charts as many dates as the option's days, with the model asked for that many steps |
| ForecastApi.ForecastChart | api/main.py:28-36 | for a valid option and a model that returns one mean per step, the chart has as many values as dates: at least one and at most seven, from tomorrow, consecutive |
| ForecastApi.DashboardOptionsAccepted | streamlit_dashboard/streamlit_app.py:32-37 | every dashboard choice passes the option check and forecasts the days its label names |

## Left out

- Reading and writing CSV, parquet and JSON files, `os.listdir`, `os.path.exists`, `joblib` and the prints are not modelled. Listings, file contents and the output folder are parameters or values.
- Reading a CSV file is not modelled; `CsvFile` is its result. It gives pandas' inferred dtype for each column as a `Kind`: text (object), a number dtype, or other.
- `GazDataProcessor.CustomAgg` follows pandas 2, where `is_string_dtype` of a group's object Series holds only when every cell is a string. A text group holding a NaN or a number therefore aggregates to NaN. pandas 1 answered from the column's dtype alone and kept the group's first cell.
- `GazDataProcessor.FirstMissing` names one missing column, the first in the wanted order. pandas' KeyError lists every missing column; the model's error carries only that one.
- `GazDataProcessor.TruncateEndDates` parses each end date on its own with `toDatetime`, which is the same for every file. pandas 2 guesses one format per column from its first non-null value and raises when a later value does not match it, and it may read day-first in one file and month-first in another. The model assumes every file writes its end dates in one format that `toDatetime` reads; a column that mixes formats passes in the model where pandas raises.
- `GazDataProcessor.Finish`: a file with no row left after cleaning gives an empty table with the `cols_to_keep` columns, which is then written. With pandas 2, grouping an empty frame with the custom aggregate may keep the three key columns both as columns and as index levels, so that `reset_index` raises a ValueError and stops the run. That failure is not modelled.
- `pd.to_datetime` on text is the parameter `toDatetime`. Microseconds and time zones are not modelled; an instant is a day and a second of that day.
- The ARIMA fit, `predict`, `get_forecast`, `np.sqrt` and `acf` are parameters.
  - The seven in-sample predictions and seven forecast values are inputs of `RunModelAndForecast`.
  - The endpoint's model is a function from steps to predicted means.
- Numbers are exact reals, with `None` for NaN; floating-point rounding is not modelled.
- `ForecastModel.MeanSquaredErrorZero`: states that an exact prediction gives zero MSE. It does not prove the converse (zero MSE implies an exact prediction), which holds over the reals but is left unproved.
- `ForecastModel.MeanAbsolutePercentageError`: a zero actual value makes numpy produce inf or NaN. The model gives a missing value instead.
- `ForecastModel.Assemble`:
  - A series shorter than seven days is an explicit `TooShort` error. Python would fail inside the ARIMA calls or compute on a shorter window.
  - A missing actual value in the window is `MissingActual`; in Python, sklearn raises a ValueError on NaN input.
- Series rows whose end date is NaT are not modelled. Every observation has a day.
- `ForecastModel.CollapseByDay` takes every `date de fin` of the series inputs to be midnight of its day. An observation carries only a day number, so rows of one day are averaged together. pandas groups by the full timestamp, so rows of one day at different times would stay apart. The collector writes dates without a time, but nothing else fixes the format of the series file.
- `ForecastModel.RegularizeDaily` takes the same midnight assumption: its grid holds every calendar day from the first to the last. `asfreq('D')` steps 24 hours from the first timestamp and reindexes onto those instants, so a row off the grid's time of day would be dropped.
- Only the `valeur` column of the series inputs is modelled. The other columns play no part in the output.
- The combined series of line 59 of dags/src/model.py is not modelled, because nothing reads it.
- The clock is a parameter: the collector's constructor and `CheckTodayFilesExist` take `now`, and so does the endpoint.
- `GazDataParquet.NormalizeColumns`: when two columns normalise to the same name, the model keeps the first column's cells under that name. pandas would keep both columns under the duplicate name.
- `Text.LowerChar` lower-cases ASCII and Latin-1 capitals only. Other Unicode case mappings are not modelled.
- Pandas sorts mixed-type groupby keys in its own way. The model uses a fixed rank instead: numbers, then days, then timestamps, then text.
- `pd.concat` can change a column's dtype, for example when NaN fills a missing integer column. This is not modelled.
- `ConcatenateAndSave` returns the table it writes. The "updated successfully" check after writing is a print and is not modelled.
- The module-level script code and the `__main__` blocks are not modelled. Nor are web scraping (dags/src/gaz_data.py) or the Airflow wiring (dags/dag.py).
- Plotly figure building is reduced to the chart's data and titles. The metrics file the endpoint loads is an opaque value.
