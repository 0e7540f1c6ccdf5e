# USPA records scraper and uploader, modelled in Dafny

The repository is two Python scripts.

- `usparecordsscrape.py` builds one records-page URL per (location, status,
  event) combination. It visits each page in a headless browser and downloads
  the page's CSV. It keeps the first seven columns under fixed names and stamps
  every row with the page's location, event and status. The shaped pages go
  into `all_data`, and at the end they are concatenated into one combined
  table.
- `uspaupload.py` reads the combined table and cuts each weight class to its
  kilogram part. It defaults `HasRecord` to a boolean, renames the columns to
  snake_case and turns the rows into records. It then clears the database table
  and inserts the records in batches of 500.

The model keeps the deterministic logic of both scripts. The browser, the
filesystem, CSV parsing and the database client become inputs or a small
object.

| file | module | what it holds |
|---|---|---|
| `wrappers.dfy` | `Wrappers` | `Option` and `Result` |
| `text.dfy` | `Text` | Python's `in`, `str.find`, `str.split` with a non-empty separator, and `str.strip`; `Join` is the reference inverse of `Split` |
| `frames.dfy` | `Frames` | the DataFrame subset both scripts use: a cell is missing, text or a boolean; a table is named columns plus rows; by-name lookup, column update, rows as records |
| `urls.dfy` | `Urls` | the location, status and event lists, `itertools.product`, the URL f-string, parameter extraction and the debug file name |
| `scrape.dfy` | `Scrape` | shaping one page, the outcome of one visit, the `all_data` loop as a method, and the final concatenation |
| `upload.dfy` | `Upload` | weight-class normalisation, the `HasRecord` default, the rename map, batching, the database as a `RecordTable` object, and the upload loop as a method |

The `all_data` loop and the batch loop are methods with loop invariants. Each
is proved against a function that states its result from the inputs:
`Scrape.Collected` and `Scrape.Screenshots` for the loop, and
`Upload.UploadTrace` for the batch loop. Lemmas then prove the properties of
those functions.

The comment at uspaupload.py:23 mentions placeholder rows. Neither script
creates any, so the model has none.

The uploader reads a `HasRecord` column (uspaupload.py:31). The scraper never
writes that column: its output has the ten columns listed at
usparecordsscrape.py:106-111. On the scraper's own output, the uploader
therefore stops with a `KeyError` before it touches the database.
`Upload.ScrapedTableLacksHasRecord` proves this. The column must come from a
producer that is not part of this model, so `Upload.Prepare` models both
cases: the error, and the table prepared as written.

## Model

| member | source | states |
|---|---|---|
| `Text.FindSpec` | usparecordsscrape.py:100 | `Find` returns the first index where the pattern occurs, and returns None exactly when it occurs nowhere |
| `Text.ContainsIff` | usparecordsscrape.py:100 | `p in s` holds exactly when `p` occurs in `s` at some index |
| `Text.Split` | usparecordsscrape.py:98-100 | a split has at least one piece, and exactly one when the separator does not occur |
| `Text.SplitPieces` | usparecordsscrape.py:98-100 | no piece of a split contains the separator |
| `Text.SplitJoin` | usparecordsscrape.py:98-100 | joining the pieces with the separator gives back the original string |
| `Text.SplitHead` | uspaupload.py:25 | piece 0 of a split on one character is the text before its first occurrence, or all of it |
| `Text.SplitLast` | usparecordsscrape.py:118 | the last piece of a split on one character is the text after its last occurrence |
| `Text.TrimStart` | uspaupload.py:25 | the result is a suffix; everything dropped is whitespace; the result does not start with whitespace |
| `Text.TrimEnd` | uspaupload.py:25 | the result is a prefix; everything dropped is whitespace; the result does not end with whitespace |
| `Text.Strip` | uspaupload.py:25 | the result is a slice of the input with no whitespace at either end, and only whitespace was removed around it |
| `Text.StripStripped` | uspaupload.py:25 | a string with no whitespace at either end strips to itself |
| `Text.StripKeeps` | uspaupload.py:25 | stripping never brings in a character that was not there |
| `Urls.ProductLength` | usparecordsscrape.py:53 | the product has len(ls) * len(ss) * len(es) entries |
| `Urls.ProductAt` | usparecordsscrape.py:53 | entry (i*len(ss) + j)*len(es) + k is (ls[i], ss[j], es[k]): locations vary slowest and events fastest |
| `Urls.PageUrlsAt` | usparecordsscrape.py:32-54 | there are 52 locations, 2 statuses and 10 events, so 1040 URLs; URL (i*2 + j)*10 + k is the page of (locations[i], statuses[j], events[k]) |
| `Urls.ListsClean` | usparecordsscrape.py:32-48 | no location, status or event contains `=` or `&` |
| `Urls.ParamValue` | usparecordsscrape.py:98-100 | `url.split(key)[1].split("&")[0]` is defined exactly when the key occurs; otherwise the IndexError is None |
| `Urls.ExtractParams` | usparecordsscrape.py:97-100 | parameters are found exactly when `location=` and `status=` both occur; without `event=`, the event is the empty string |
| `Urls.LocationRoundTrip` | usparecordsscrape.py:98 | on a URL built from values without `=` or `&`, `location_value` is the location it was built with, whatever the base address |
| `Urls.StatusRoundTrip` | usparecordsscrape.py:99 | likewise for `status_value` |
| `Urls.EventRoundTrip` | usparecordsscrape.py:100 | likewise for `event_value`, and `event=` is present |
| `Urls.UrlRoundTrip` | usparecordsscrape.py:52 | extracting the parameters of a page URL gives back the query it was built from |
| `Urls.LastSegmentOn` | usparecordsscrape.py:118 | the last `=`-separated segment of a page URL is its event |
| `Urls.DebugNameOfUrl` | usparecordsscrape.py:118 | the debug screenshot of a page URL is named `debug_<event>.png` |
| `Urls.PageUrlsRoundTrip` | usparecordsscrape.py:51-54 | each of the 1040 generated URLs yields the location, status and event it was built from, and its last segment is the event |
| `Frames.IndexOf` | uspaupload.py:24 | the position of the first column with the name, and None exactly when no column has it |
| `Frames.GetAt` | uspaupload.py:24 | with distinct column names, `df[name][i]` reads the cell under that name |
| `Frames.MapColumn` | uspaupload.py:24-26 | `df[c] = df[c].apply(f)` keeps the columns and the row count, applies `f` to column `c` only, and leaves every other cell as it was |
| `Frames.RowRecord` | uspaupload.py:50 | a record's keys are the column names, and each key maps to the row's cell under the first column of that name; `Frames.RecordsAt` and `Upload.UploadedRecordAt` state what this means for the uploaded rows |
| `Frames.Records` | uspaupload.py:50 | one record per row, in row order; `Upload.Serialize` adds the ValueError on repeated column names |
| `Frames.RecordsAt` | uspaupload.py:50 | with distinct column names, record i holds under column k's name exactly the cell of row i, column k: no cell is lost or overwritten |
| `Scrape.ShapePage` | usparecordsscrape.py:105-111 | a table with at least seven columns keeps its first seven cells per row, under the seven record names, followed by the page's Location, Event and Status; with fewer columns the rename raises (None) |
| `Scrape.OutputColumnsLayout` | usparecordsscrape.py:106-111 | the shaped columns are the seven record names and then Location, Event and Status, with no name repeated |
| `Scrape.PageByName` | usparecordsscrape.py:106-111 | read by name, a shaped page's record columns hold the downloaded cells, and its metadata columns hold the page's values |
| `Scrape.Visit` | usparecordsscrape.py:63-124 | a page error or a download timeout is skipped. A page loads exactly when a CSV is parsed, the URL has its parameters and the table has at least seven columns. Every other failure leaves `debug_<last segment>.png` |
| `Scrape.CollectPages` | usparecordsscrape.py:58-124 | the loop leaves in `all_data` exactly the loaded pages, in visit order, and lists the screenshots it saved in order |
| `Scrape.CollectedAppend` | usparecordsscrape.py:61-113 | collecting over two runs of URLs is collecting over each and concatenating: visit order is kept |
| `Scrape.CollectedShape` | usparecordsscrape.py:105-113 | every collected page has the ten output columns and well-formed rows |
| `Scrape.CountBounds` | usparecordsscrape.py:61-124 | the number of collected pages is the number of visits that loaded; pages plus screenshots never exceed the URLs |
| `Scrape.CollectedSkip` | usparecordsscrape.py:61-124 | a visit that does not load adds no page wherever it falls: the pages collected are those of the URLs before it followed by those of the URLs after it |
| `Scrape.VisitStamps` | usparecordsscrape.py:98-111 | a page whose URL yields a query, and whose CSV is wide enough, loads with that query's Location, Status and Event in every row |
| `Scrape.GeneratedPageLoads` | usparecordsscrape.py:97-113 | on generated URL (i*2 + j)*10 + k, every row of a loaded page carries locations[i], statuses[j] and events[k] |
| `Scrape.GeneratedPageScreenshot` | usparecordsscrape.py:116-118 | a generated page that fails in the inner handler saves `debug_<its event>.png` |
| `Scrape.ConcatRowsAt` | usparecordsscrape.py:130 | row i of page p is row (rows of pages before p) + i of the concatenation |
| `Scrape.ConcatRowsLength` | usparecordsscrape.py:130 | the concatenation's row count is the sum of the pages' row counts |
| `Scrape.Combine` | usparecordsscrape.py:129-135 | there is no output exactly when nothing was collected |
| `Scrape.CombineShape` | usparecordsscrape.py:129-130 | concatenating collected pages keeps the ten output columns and well-formed rows |
| `Scrape.ScrapeAllShape` | usparecordsscrape.py:51-132 | the combined output of a whole run, when there is one, has the ten output columns and well-formed rows |
| `Upload.NormalizeWeightClass` | uspaupload.py:24-26 | a missing value stays missing; a present one becomes text with no `/` and no whitespace at either end |
| `Upload.WeightClassBeforeSlash` | uspaupload.py:25 | the normalised weight class is the stripped text before the first `/`, or all of it when there is none |
| `Upload.NormalizeKgForm` | uspaupload.py:22-26 | `<kg>/<rest>` normalises to `<kg>` when `<kg>` has no `/` and no surrounding whitespace |
| `Upload.NormalizeMetricExample` | uspaupload.py:22 | "60kg/132.2lb" normalises to "60kg" |
| `Upload.NormalizeSuperHeavyExample` | uspaupload.py:22 | "140+kg/SHW" normalises to "140+kg" |
| `Upload.NormalizeIdempotent` | uspaupload.py:24-26 | normalising twice is normalising once |
| `Upload.HasRecordFlag` | uspaupload.py:31 | the result is a boolean: missing becomes false, a boolean is kept, text is true exactly when non-empty |
| `Upload.HasRecordIdempotent` | uspaupload.py:31 | applying the default twice is applying it once |
| `Upload.SourceColumnsDistinct` | uspaupload.py:34-46 | the rename map has 11 distinct keys |
| `Upload.DbColumnsDistinct` | uspaupload.py:34-46 | the rename map has 11 distinct new names |
| `Upload.RenameAt` | uspaupload.py:34-46 | each key is renamed to its snake_case name |
| `Upload.RenameColumns` | uspaupload.py:34-46 | the 11 expected columns are renamed, in order, to the database's 11 columns |
| `Upload.RenameInjective` | uspaupload.py:34-46 | two different keys get different new names |
| `Upload.RenameKeeps` | uspaupload.py:34-46 | a column name that is not a key is left unchanged |
| `Upload.Renamed` | uspaupload.py:34-46 | renaming keeps the number of columns and renames each column by itself |
| `Upload.DistinctBeforeRename` | uspaupload.py:34-46 | column names that are distinct after the rename were distinct before it |
| `Upload.PreparedRows` | uspaupload.py:24-31 | after the two column updates, the weight-class column is normalised, the HasRecord column is a boolean, and every other cell is as loaded |
| `Upload.Prepare` | uspaupload.py:24-46 | preparation succeeds exactly when Weight Class, Kilos, Pounds and HasRecord are all present; otherwise it stops with a KeyError on the first one missing, in reading order; on success the columns are the renamed columns and the row count is kept |
| `Upload.PreparedAt` | uspaupload.py:24-31 | a prepared table's rows are the prepared rows at the first Weight Class and HasRecord columns, which differ |
| `Upload.PrepareCells` | uspaupload.py:24-31 | cell by cell: the normalised weight class, the boolean flag, or the loaded cell |
| `Upload.PrepareByName` | uspaupload.py:24-46 | read under its new name, each column holds the normalised weight class, the flag, or the loaded cell |
| `Upload.PrepareStandard` | uspaupload.py:24-46 | a table with the 11 expected columns prepares without error to the database's column names, which are distinct |
| `Upload.ScrapedTableLacksHasRecord` | uspaupload.py:31 | on the scraper's ten output columns, preparation stops with `KeyError: HasRecord` |
| `Upload.Serialize` | uspaupload.py:50 | `to_json(orient="records")` raises a ValueError exactly when two columns share a name; otherwise there is one record per row, and record i holds under column k's name the cell of row i, column k |
| `Upload.UploadedRecordAt` | uspaupload.py:24-50 | with distinct renamed columns, record i holds under the snake_case name of each loaded column the normalised weight class, the boolean flag, or the loaded cell |
| `Upload.RenamedAlike` | uspaupload.py:34-46 | two different loaded columns that get the same new name make the renamed columns repeat a name |
| `Upload.RenameBoth` | uspaupload.py:34-46 | a key and its snake_case name differ, and both are renamed to the snake_case name |
| `Upload.RenameCollision` | uspaupload.py:34-46 | a header holding both a key and its snake_case name (such as `Division` and `division`) repeats a name after the rename |
| `Upload.RepeatedColumnsRefused` | uspaupload.py:24-50 | a table with the four read columns whose renamed columns repeat a name passes the KeyError checks and stops at the records step with a ValueError |
| `Upload.DivisionCollisionExample` | uspaupload.py:34-50 | the header `Division, division, Weight Class, Kilos, Pounds, HasRecord` has the four read columns, and after the rename two columns are called `division` |
| `Upload.BatchCount` | uspaupload.py:58 | `ceil(n / 500)`: the batches cover n records, the last batch is not empty, and there are zero batches exactly when there are zero records |
| `Upload.Batch` | uspaupload.py:62 | every batch has between 1 and 500 records, and every batch except the last has exactly 500 |
| `Upload.FlattenPrefix` | uspaupload.py:61-62 | the first i batches, joined, are the first min(500 i, n) records |
| `Upload.FlattenBatches` | uspaupload.py:61-62 | all batches joined in order are exactly the records: none is skipped or repeated |
| `Upload.RecordTable.Truncate` | uspaupload.py:55 | the `truncate_uspa_records` call empties the table and is logged |
| `Upload.RecordTable.Insert` | uspaupload.py:63 | an insert appends its batch after the existing rows and is logged |
| `Upload.UploadRecords` | uspaupload.py:53-64 | after the clear and the batch loop, the table holds exactly the records in order, and the calls made are the upload trace |
| `Upload.TraceOrder` | uspaupload.py:55-63 | the trace is one truncate followed by one insert per batch, in batch order |
| `Upload.ReplayInserts` | uspaupload.py:61-63 | inserting batches after existing rows appends their records in order |
| `Upload.ReplayAfterTruncate` | uspaupload.py:55 | a truncate wipes whatever the table held before it |
| `Upload.UploadTraceResult` | uspaupload.py:55-63 | replaying the upload's calls on any table leaves exactly the uploaded records |
| `Upload.UploadTable` | uspaupload.py:24-64 | a KeyError, or a ValueError from repeated renamed columns, is returned and leaves the database untouched; otherwise the table is cleared and ends up with every prepared record, and the row count is returned |

## Left out

- The browser: driver setup, navigation, iframe switching, button lookup and clicks, waits, sleeps and the twenty-step download poll (usparecordsscrape.py:17-29, 64-95). Each page's result is an input of type `PageVisit`, one per URL.
- The filesystem: creating and removing the download directory, globbing and deleting old CSVs, saving screenshots and writing the combined CSV. Only the screenshot file name is modelled.
- CSV parsing (`pd.read_csv`): a parsed table is an input, and a CSV that fails to parse is `Downloaded(None)`. The round trip of the combined table through `uspa_all_records.csv` is not modelled: the uploader receives a `Table`.
- Upload.PreparedRows: does not model the `pd.to_numeric(..., errors="coerce")` conversion of Kilos and Pounds (uspaupload.py:29-30). Float parsing is not modelled, so those cells pass through unchanged; only the KeyError of reading those columns is kept.
- Frames.Records: apart from the ValueError on repeated column names, which `Upload.Serialize` models, the trip through `to_json` and `json.loads` (uspaupload.py:50) is treated as exact. NaN becomes a missing cell, and numeric formatting is not modelled.
- The Supabase client, dotenv and the environment variables (uspaupload.py:5-16). The database is the `RecordTable` object, which records the clear and insert calls. A failing call, which would stop the script with an exception, is not modelled.
- Console output: every `print`.
- The column assignments on `df` happen in place in pandas. The model computes a new table value for each assignment (`MapColumn`), so aliasing of DataFrames is not modelled.
- `pd.concat` is modelled for pages that share the same columns, which is always the case for collected pages. Concatenation of differing column sets is not modelled.
