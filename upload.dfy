/**
 * The uploader: it normalises the combined records table (weight classes cut
 * to their kilogram part, a boolean HasRecord column, snake_case column
 * names), turns it into records, clears the database table and inserts the
 * records in batches of 500.
 *
 * The database is a `RecordTable` object whose state is its rows and the log
 * of operations it received.
 */
module Upload {
  import opened Wrappers
  import opened Text
  import opened Frames
  import Scrape

  // ---------------------------------------------------------------------------
  // Weight classes

  /** Python's `str(value)` for a present cell. */
  function CellString(c: Cell): string
    requires !c.Missing?
  {
    match c
    case Text(s) => s
    case Flag(b) => if b then "True" else "False"
  }

  /**
   * A present weight class becomes the text before its first `/`, without
   * surrounding whitespace; a missing one stays missing.
   */
  function NormalizeWeightClass(c: Cell): (r: Cell)
    ensures r.Missing? <==> c.Missing?
    ensures r.Text? ==> '/' !in r.text && IsStripped(r.text)
    ensures r.Missing? || r.Text?
  {
    if c.Missing? then Missing
    else
      var pieces := Split(CellString(c), "/");
      SplitPieces(CellString(c), "/");
      NoSlash(pieces[0]);
      StripKeeps(pieces[0], '/');
      Text(Strip(pieces[0]))
  }

  /** A string that does not contain "/" has no '/' character. */
  lemma NoSlash(s: string)
    requires !Contains(s, "/")
    ensures '/' !in s
  {
    if '/' in s {
      var j :| 0 <= j < |s| && s[j] == '/';
      assert s[j..j + 1] == "/";
      ContainsIff(s, "/");
      assert OccursAt(s, "/", j);
      assert false;
    }
  }

  /** The weight class is the stripped text up to the first '/' (or all of it). */
  lemma WeightClassBeforeSlash(s: string, i: nat)
    requires i <= |s| && '/' !in s[..i] && (i == |s| || s[i] == '/')
    ensures NormalizeWeightClass(Text(s)) == Text(Strip(s[..i]))
  {
    assert s == s[..i] + s[i..];
    SplitHead(s[..i], '/', s[i..]);
  }

  /** Normalising a normalised weight class changes nothing. */
  lemma NormalizeIdempotent(c: Cell)
    ensures NormalizeWeightClass(NormalizeWeightClass(c)) == NormalizeWeightClass(c)
  {
    var r := NormalizeWeightClass(c);
    if r.Text? {
      WeightClassBeforeSlash(r.text, |r.text|);
      assert r.text[..|r.text|] == r.text;
      StripStripped(r.text);
    }
  }

  /**
   * A weight class written `<kg>/<rest>`, with no '/' or surrounding space in
   * `<kg>`, normalises to `<kg>`.
   */
  lemma NormalizeKgForm(kg: string, rest: string)
    requires '/' !in kg && IsStripped(kg)
    ensures NormalizeWeightClass(Text(kg + "/" + rest)) == Text(kg)
  {
    var s := kg + "/" + rest;
    assert s[..|kg|] == kg && s[|kg|] == '/';
    WeightClassBeforeSlash(s, |kg|);
    StripStripped(kg);
  }

  /** The first form given by the script's own comment. */
  lemma NormalizeMetricExample(wc: string)
    requires wc == "60kg/132.2lb"
    ensures NormalizeWeightClass(Text(wc)) == Text("60kg")
  {
    assert wc == "60kg" + "/" + "132.2lb";
    NormalizeKgForm("60kg", "132.2lb");
  }

  /** The second form given by the script's own comment. */
  lemma NormalizeSuperHeavyExample(wc: string)
    requires wc == "140+kg/SHW"
    ensures NormalizeWeightClass(Text(wc)) == Text("140+kg")
  {
    assert wc == "140+kg" + "/" + "SHW";
    NormalizeKgForm("140+kg", "SHW");
  }

  // ---------------------------------------------------------------------------
  // HasRecord

  /** `fillna(False).astype(bool)`: missing is false, text is true when non-empty. */
  function HasRecordFlag(c: Cell): (r: Cell)
    ensures r.Flag?
    ensures c.Missing? ==> !r.flag
    ensures c.Flag? ==> r == c
    ensures c.Text? ==> (r.flag <==> c.text != "")
  {
    match c
    case Missing => Flag(false)
    case Flag(b) => Flag(b)
    case Text(s) => Flag(s != "")
  }

  /** Applying the default twice is applying it once. */
  lemma HasRecordIdempotent(c: Cell)
    ensures HasRecordFlag(HasRecordFlag(c)) == HasRecordFlag(c)
  {
  }

  // ---------------------------------------------------------------------------
  // Column renaming

  /**
   * The rename map, as its keys and, at the same positions, their new names.
   * The keys are the scraper's output columns and HasRecord.
   */
  const SourceColumns: seq<string> :=
    ["Division", "Weight Class", "Lift", "Name", "Kilos", "Pounds", "Date", "Location", "Event", "Status", "HasRecord"]

  const DbColumns: seq<string> :=
    ["division", "weight_class", "lift", "name", "kilos", "pounds", "date", "location", "event", "status", "has_record"]

  /** The keys repeat no name. */
  lemma SourceColumnsDistinct()
    ensures |SourceColumns| == 11 && Distinct(SourceColumns)
  {
  }

  /** The new names repeat no name. */
  lemma DbColumnsDistinct()
    ensures |DbColumns| == 11 && Distinct(DbColumns)
  {
  }

  /** The new name of a column: its value in the rename map, or the name itself when it is not a key. */
  function Rename(name: string): string {
    match IndexOf(SourceColumns, name)
    case Some(k) => DbColumns[k]
    case None => name
  }

  /** `df.rename(columns=...)` on a list of column names. */
  function Renamed(columns: seq<string>): (r: seq<string>)
    ensures |r| == |columns|
    ensures forall k :: 0 <= k < |columns| ==> r[k] == Rename(columns[k])
  {
    seq(|columns|, k requires 0 <= k < |columns| => Rename(columns[k]))
  }

  /** Each key is renamed to the new name at its position. */
  lemma RenameAt(k: nat)
    requires k < |SourceColumns|
    ensures Rename(SourceColumns[k]) == DbColumns[k]
  {
    SourceColumnsDistinct();
    DbColumnsDistinct();
    IndexOfAt(SourceColumns, k);
  }

  /** The rename map sends the expected columns to the database's columns, position by position. */
  lemma RenameColumns()
    ensures Renamed(SourceColumns) == DbColumns
  {
    SourceColumnsDistinct();
    DbColumnsDistinct();
    forall k | 0 <= k < 11 ensures Renamed(SourceColumns)[k] == DbColumns[k] {
      RenameAt(k);
    }
  }

  /** Distinct keys get distinct new names. */
  lemma RenameInjective(a: string, b: string)
    requires a in SourceColumns && b in SourceColumns && a != b
    ensures Rename(a) != Rename(b)
  {
    DbColumnsDistinct();
    var i :| 0 <= i < |SourceColumns| && SourceColumns[i] == a;
    var j :| 0 <= j < |SourceColumns| && SourceColumns[j] == b;
    RenameAt(i);
    RenameAt(j);
    if i < j {
      assert DbColumns[i] != DbColumns[j];
    } else {
      assert DbColumns[j] != DbColumns[i];
    }
  }

  /** A name that is not a key is kept. */
  lemma RenameKeeps(name: string)
    requires name !in SourceColumns
    ensures Rename(name) == name
  {
  }

  /** Names that stay apart after renaming were apart before it. */
  lemma DistinctBeforeRename(columns: seq<string>)
    requires Distinct(Renamed(columns))
    ensures Distinct(columns)
  {
    forall a, b | 0 <= a < b < |columns| ensures columns[a] != columns[b] {
      assert Renamed(columns)[a] != Renamed(columns)[b];
    }
  }

  // ---------------------------------------------------------------------------
  // Preparing the table

  /**
   * The exceptions that stop the uploader: a KeyError when a column it reads
   * is missing, and the ValueError `to_json(orient="records")` raises when two
   * columns share a name.
   */
  datatype Failure = KeyError(column: string) | ValueError

  /** The four columns the uploader reads are all present. */
  predicate HasReadColumns(columns: seq<string>) {
    "Weight Class" in columns && "Kilos" in columns && "Pounds" in columns && "HasRecord" in columns
  }

  /**
   * The rows after `df[wc] = df[wc].apply(...)` and `df[hr] = df[hr].fillna(False).astype(bool)`:
   * column `wc` normalised, column `hr` a boolean, every other cell as loaded.
   */
  function PreparedRows(t: Table, wc: nat, hr: nat): (rows: seq<Row>)
    requires WellFormed(t) && wc < |t.columns| && hr < |t.columns| && wc != hr
    ensures |rows| == |t.rows|
    ensures forall i :: 0 <= i < |rows| ==> |rows[i]| == |t.columns|
    ensures forall i, k :: 0 <= i < |t.rows| && 0 <= k < |t.columns| ==>
              rows[i][k] == (if k == wc then NormalizeWeightClass(t.rows[i][k])
                             else if k == hr then HasRecordFlag(t.rows[i][k])
                             else t.rows[i][k])
  {
    MapColumn(MapColumn(t, wc, NormalizeWeightClass), hr, HasRecordFlag).rows
  }

  /**
   * Normalise the weight classes, default HasRecord to a boolean and rename
   * the columns. Reading a missing column raises a KeyError at the first one
   * missing, in the order the script reads them.
   */
  function Prepare(t: Table): (r: Result<Table, Failure>)
    requires WellFormed(t)
    ensures r.Ok? <==> HasReadColumns(t.columns)
    ensures "Weight Class" !in t.columns ==> r == Err(KeyError("Weight Class"))
    ensures "Weight Class" in t.columns && "Kilos" !in t.columns ==> r == Err(KeyError("Kilos"))
    ensures "Weight Class" in t.columns && "Kilos" in t.columns && "Pounds" !in t.columns ==>
              r == Err(KeyError("Pounds"))
    ensures "Weight Class" in t.columns && "Kilos" in t.columns && "Pounds" in t.columns && "HasRecord" !in t.columns ==>
              r == Err(KeyError("HasRecord"))
    ensures r.Ok? ==> WellFormed(r.value) && |r.value.rows| == |t.rows| && r.value.columns == Renamed(t.columns)
  {
    match IndexOf(t.columns, "Weight Class")
    case None => Err(KeyError("Weight Class"))
    case Some(wc) =>
      if "Kilos" !in t.columns then Err(KeyError("Kilos"))
      else if "Pounds" !in t.columns then Err(KeyError("Pounds"))
      else match IndexOf(t.columns, "HasRecord")
        case None => Err(KeyError("HasRecord"))
        case Some(hr) => Ok(Table(Renamed(t.columns), PreparedRows(t, wc, hr)))
  }

  /** A prepared table's rows are the prepared rows at the first "Weight Class" and "HasRecord" columns. */
  lemma PreparedAt(t: Table, wc: nat, hr: nat)
    requires WellFormed(t) && Prepare(t).Ok?
    requires IndexOf(t.columns, "Weight Class") == Some(wc) && IndexOf(t.columns, "HasRecord") == Some(hr)
    ensures wc != hr && Prepare(t).value.rows == PreparedRows(t, wc, hr)
  {
  }

  /**
   * Cell by cell, a prepared table holds the normalised weight class in the
   * first "Weight Class" column, the boolean flag in the first "HasRecord"
   * column and every other cell as loaded.
   */
  lemma PrepareCells(t: Table, i: nat, k: nat)
    requires WellFormed(t) && Prepare(t).Ok? && i < |t.rows| && k < |t.columns|
    ensures IndexOf(t.columns, "Weight Class").Some? && IndexOf(t.columns, "HasRecord").Some?
    ensures Prepare(t).value.rows[i][k] ==
              (if Some(k) == IndexOf(t.columns, "Weight Class") then NormalizeWeightClass(t.rows[i][k])
               else if Some(k) == IndexOf(t.columns, "HasRecord") then HasRecordFlag(t.rows[i][k])
               else t.rows[i][k])
  {
    var wc := IndexOf(t.columns, "Weight Class").value;
    var hr := IndexOf(t.columns, "HasRecord").value;
    PreparedAt(t, wc, hr);
    var rows := PreparedRows(t, wc, hr);
    if k == wc {
      assert rows[i][k] == NormalizeWeightClass(t.rows[i][k]);
    } else if k == hr {
      assert rows[i][k] == HasRecordFlag(t.rows[i][k]);
    } else {
      assert rows[i][k] == t.rows[i][k];
    }
  }

  /**
   * Read by name, a prepared table holds under each renamed column the
   * normalised weight class, the boolean flag, or the loaded cell, provided
   * the renamed columns are distinct.
   */
  lemma PrepareByName(t: Table, i: nat, name: string)
    requires WellFormed(t) && Prepare(t).Ok? && Distinct(Renamed(t.columns))
    requires name in t.columns && i < |t.rows|
    ensures Rename(name) in Prepare(t).value.columns
    ensures Get(Prepare(t).value, i, Rename(name)) ==
              if name == "Weight Class" then NormalizeWeightClass(Get(t, i, name))
              else if name == "HasRecord" then HasRecordFlag(Get(t, i, name))
              else Get(t, i, name)
  {
    var r := Prepare(t).value;
    var k := IndexOf(t.columns, name).value;
    DistinctBeforeRename(t.columns);
    GetAt(r, i, k);
    assert r.columns[k] == Rename(name);
    PrepareCells(t, i, k);
    IndexOfAt(t.columns, k);
  }

  /**
   * A table laid out as the uploader expects is prepared without error, and
   * the prepared table has the database's columns, which are distinct, so
   * PrepareByName reads every one of them.
   */
  lemma PrepareStandard(t: Table)
    requires WellFormed(t) && t.columns == SourceColumns
    ensures Prepare(t).Ok? && Prepare(t).value.columns == DbColumns && Distinct(Renamed(t.columns))
  {
    SourceReadColumns();
    RenameColumns();
    DbColumnsDistinct();
  }

  /** The expected layout holds the four columns the uploader reads. */
  lemma SourceReadColumns()
    ensures HasReadColumns(SourceColumns)
  {
    var s := SourceColumns;
    assert s[1] == "Weight Class" && s[4] == "Kilos" && s[5] == "Pounds" && s[10] == "HasRecord";
  }

  /**
   * The scraper's output has no HasRecord column, so the uploader stops with
   * a KeyError on it before touching the database.
   */
  lemma ScrapedTableLacksHasRecord(t: Table)
    requires WellFormed(t) && t.columns == Scrape.OutputColumns
    ensures Prepare(t) == Err(KeyError("HasRecord"))
  {
    var c := Scrape.OutputColumns;
    assert c[1] == "Weight Class" && c[4] == "Kilos" && c[5] == "Pounds";
    assert "HasRecord" !in c;
  }

  // ---------------------------------------------------------------------------
  // Records

  /**
   * `json.loads(df.to_json(orient="records"))`: one record per row, or a
   * ValueError when two columns share a name.
   */
  function Serialize(t: Table): (r: Result<seq<Record>, Failure>)
    requires WellFormed(t)
    ensures r.Err? <==> !Distinct(t.columns)
    ensures r.Err? ==> r.error == ValueError
    ensures r.Ok? ==> |r.value| == |t.rows|
    ensures r.Ok? ==> forall i, k :: 0 <= i < |t.rows| && 0 <= k < |t.columns| ==>
              t.columns[k] in r.value[i] && r.value[i][t.columns[k]] == t.rows[i][k]
  {
    if Distinct(t.columns) then
      RecordsAt(t);
      Ok(Records(t))
    else
      Err(ValueError)
  }

  /**
   * End to end: when the renamed columns are distinct, record `i` holds,
   * under the snake_case name of a loaded column, the normalised weight
   * class, the boolean flag, or the loaded cell.
   */
  lemma UploadedRecordAt(t: Table, i: nat, name: string)
    requires WellFormed(t) && Prepare(t).Ok? && Distinct(Renamed(t.columns))
    requires name in t.columns && i < |t.rows|
    ensures Serialize(Prepare(t).value).Ok?
    ensures Rename(name) in Serialize(Prepare(t).value).value[i]
    ensures Serialize(Prepare(t).value).value[i][Rename(name)] ==
              if name == "Weight Class" then NormalizeWeightClass(Get(t, i, name))
              else if name == "HasRecord" then HasRecordFlag(Get(t, i, name))
              else Get(t, i, name)
  {
    var p := Prepare(t).value;
    PrepareByName(t, i, name);
    var k := IndexOf(p.columns, Rename(name)).value;
    GetAt(p, i, k);
  }

  /**
   * Column names that hold both a key of the rename map and its new name
   * (say "Division" and "division") repeat a name after the rename.
   */
  lemma RenameCollision(columns: seq<string>, k: nat)
    requires k < |SourceColumns| && SourceColumns[k] in columns && DbColumns[k] in columns
    ensures !Distinct(Renamed(columns))
  {
    var src, dst := SourceColumns[k], DbColumns[k];
    RenameBoth(k);
    RenamedAlike(columns, src, dst);
  }

  /** Two different columns given the same new name repeat it after the rename. */
  lemma RenamedAlike(columns: seq<string>, x: string, y: string)
    requires x in columns && y in columns && x != y && Rename(x) == Rename(y)
    ensures !Distinct(Renamed(columns))
  {
    var a :| 0 <= a < |columns| && columns[a] == x;
    var b :| 0 <= b < |columns| && columns[b] == y;
    RepeatedName(Renamed(columns), a, b);
  }

  /**
   * A table that prepares without a KeyError but repeats a name after the
   * rename stops at the records step with a ValueError, before the database
   * is touched.
   */
  lemma RepeatedColumnsRefused(t: Table)
    requires WellFormed(t) && HasReadColumns(t.columns) && !Distinct(Renamed(t.columns))
    ensures Prepare(t).Ok? && Serialize(Prepare(t).value) == Err(ValueError)
  {
    var p := Prepare(t);
    assert p.Ok? && p.value.columns == Renamed(t.columns);
  }

  /** A key and its new name are both renamed to the new name. */
  lemma RenameBoth(k: nat)
    requires k < |SourceColumns|
    ensures SourceColumns[k] != DbColumns[k]
    ensures Rename(SourceColumns[k]) == DbColumns[k] && Rename(DbColumns[k]) == DbColumns[k]
  {
    RenameAt(k);
    DbNotSource(k);
    RenameKeeps(DbColumns[k]);
  }

  /** Two positions holding the same name make the names not distinct. */
  lemma RepeatedName(names: seq<string>, a: nat, b: nat)
    requires a < |names| && b < |names| && a != b && names[a] == names[b]
    ensures !Distinct(names)
  {
    if b < a {
      assert names[b] == names[a];
    }
  }

  /** No new name is also a key. */
  lemma DbNotSource(k: nat)
    requires k < |DbColumns|
    ensures DbColumns[k] !in SourceColumns
  {
  }

  /** A header with both "Division" and "division", next to the four read columns. */
  const DivisionPair: seq<string> := ["Division", "division", "Weight Class", "Kilos", "Pounds", "HasRecord"]

  /**
   * The four read columns are there, so no KeyError is raised, but two
   * columns are called "division" after the rename, so RepeatedColumnsRefused
   * stops the upload with a ValueError.
   */
  lemma DivisionCollisionExample()
    ensures HasReadColumns(DivisionPair) && !Distinct(Renamed(DivisionPair))
  {
    DivisionPairReads();
    var c := DivisionPair;
    assert c[0] == SourceColumns[0] && c[1] == DbColumns[0];
    RenameCollision(c, 0);
  }

  /** The header holds the four read columns. */
  lemma DivisionPairReads()
    ensures HasReadColumns(DivisionPair)
  {
    var c := DivisionPair;
    assert c[2] == "Weight Class" && c[3] == "Kilos" && c[4] == "Pounds" && c[5] == "HasRecord";
  }

  // ---------------------------------------------------------------------------
  // Batches

  function Min(a: int, b: int): int {
    if a <= b then a else b
  }

  /** `math.ceil(n / BATCH_SIZE)`, with the script's BATCH_SIZE of 500. */
  function BatchCount(n: nat): (r: nat)
    ensures r * 500 >= n
    ensures r > 0 ==> (r - 1) * 500 < n
    ensures r == 0 <==> n == 0
  {
    (n + 499) / 500
  }

  /** Batch `i`: `records[i*BATCH_SIZE : (i+1)*BATCH_SIZE]`, the slice clipped at the end as Python does. */
  function Batch<T>(xs: seq<T>, i: nat): (r: seq<T>)
    requires i < BatchCount(|xs|)
    ensures 0 < |r| <= 500
    ensures i < BatchCount(|xs|) - 1 ==> |r| == 500
  {
    xs[i * 500 .. Min((i + 1) * 500, |xs|)]
  }

  /** The batches, in order. */
  function Batches<T>(xs: seq<T>): (r: seq<seq<T>>)
    ensures |r| == BatchCount(|xs|)
  {
    seq(BatchCount(|xs|), i requires 0 <= i < BatchCount(|xs|) => Batch(xs, i))
  }

  /** The batches joined back together, in order. */
  function Flatten<T>(bs: seq<seq<T>>): seq<T> {
    if bs == [] then [] else Flatten(bs[..|bs| - 1]) + bs[|bs| - 1]
  }

  /** The first `i` batches join to the first `min(500 i, n)` records. */
  lemma {:induction false} FlattenPrefix<T>(xs: seq<T>, i: nat)
    requires i <= BatchCount(|xs|)
    ensures Min(i * 500, |xs|) <= |xs|
    ensures Flatten(Batches(xs)[..i]) == xs[..Min(i * 500, |xs|)]
  {
    var bs := Batches(xs);
    if i > 0 {
      FlattenPrefix(xs, i - 1);
      assert bs[..i][..i - 1] == bs[..i - 1];
      assert bs[..i][i - 1] == Batch(xs, i - 1);
      var lo := (i - 1) * 500;
      assert Min(lo, |xs|) == lo;
      assert xs[..lo] + xs[lo..Min(i * 500, |xs|)] == xs[..Min(i * 500, |xs|)];
    }
  }

  /** The batches cover the records exactly once and in order. */
  lemma FlattenBatches<T>(xs: seq<T>)
    ensures Flatten(Batches(xs)) == xs
  {
    var n := BatchCount(|xs|);
    FlattenPrefix(xs, n);
    assert Batches(xs)[..n] == Batches(xs);
    assert xs[..|xs|] == xs;
  }

  // ---------------------------------------------------------------------------
  // The database table and the upload

  /** A call the uploader makes on the database. */
  datatype Call = TruncateCall | InsertCall(batch: seq<Record>)

  /** The effect of one call on the table's rows. */
  function Apply(rows: seq<Record>, c: Call): seq<Record> {
    match c
    case TruncateCall => []
    case InsertCall(batch) => rows + batch
  }

  /** The table's rows after a sequence of calls. */
  function Replay(rows: seq<Record>, calls: seq<Call>): seq<Record> {
    if calls == [] then rows else Apply(Replay(rows, calls[..|calls| - 1]), calls[|calls| - 1])
  }

  /** One insert call per batch, in order. */
  function InsertCalls(bs: seq<seq<Record>>): (r: seq<Call>)
    ensures |r| == |bs|
    ensures forall k :: 0 <= k < |bs| ==> r[k] == InsertCall(bs[k])
  {
    seq(|bs|, k requires 0 <= k < |bs| => InsertCall(bs[k]))
  }

  /** The calls of one upload: a truncate, then an insert per batch. */
  function UploadTrace(records: seq<Record>): seq<Call> {
    [TruncateCall] + InsertCalls(Batches(records))
  }

  /** The records table: its rows and the calls it has received. */
  class RecordTable {
    var rows: seq<Record>
    var log: seq<Call>

    constructor (initial: seq<Record>)
      ensures rows == initial && log == []
    {
      rows := initial;
      log := [];
    }

    /** The `truncate_uspa_records` procedure: every row is deleted. */
    method Truncate()
      modifies this
      ensures rows == Apply(old(rows), TruncateCall) && log == old(log) + [TruncateCall]
    {
      rows := [];
      log := log + [TruncateCall];
    }

    /** An insert of one batch: its records are added after the existing rows. */
    method Insert(batch: seq<Record>)
      modifies this
      ensures rows == Apply(old(rows), InsertCall(batch)) && log == old(log) + [InsertCall(batch)]
    {
      rows := rows + batch;
      log := log + [InsertCall(batch)];
    }
  }

  /**
   * Clear the table, then insert the records batch by batch. Afterwards the
   * table holds exactly the records, in order, whatever it held before.
   */
  method UploadRecords(db: RecordTable, records: seq<Record>)
    modifies db
    ensures db.rows == records
    ensures db.log == old(db.log) + UploadTrace(records)
  {
    ghost var log := db.log;
    db.Truncate();
    var total := BatchCount(|records|);
    ghost var bs := Batches(records);
    for i := 0 to total
      invariant db.rows == Flatten(bs[..i])
      invariant db.log == log + [TruncateCall] + InsertCalls(bs[..i])
    {
      var batch := Batch(records, i);
      UploadStep(records, i);
      db.Insert(batch);
    }
    UploadDone(records, log);
  }

  /** One more batch extends both the inserted rows and the inserts by that batch. */
  lemma UploadStep(records: seq<Record>, i: nat)
    requires i < BatchCount(|records|)
    ensures Flatten(Batches(records)[..i + 1]) == Flatten(Batches(records)[..i]) + Batch(records, i)
    ensures InsertCalls(Batches(records)[..i + 1]) == InsertCalls(Batches(records)[..i]) + [InsertCall(Batch(records, i))]
  {
    var bs := Batches(records);
    assert bs[..i + 1][..i] == bs[..i] && bs[..i + 1][i] == bs[i] == Batch(records, i);
  }

  /** After the last batch, the inserted rows are the records and the calls are the upload's trace. */
  lemma UploadDone(records: seq<Record>, log: seq<Call>)
    ensures Flatten(Batches(records)[..BatchCount(|records|)]) == records
    ensures log + [TruncateCall] + InsertCalls(Batches(records)[..BatchCount(|records|)]) == log + UploadTrace(records)
  {
    assert Batches(records)[..BatchCount(|records|)] == Batches(records);
    FlattenBatches(records);
  }

  /** The truncate comes first, and every later call inserts the next batch. */
  lemma TraceOrder(records: seq<Record>)
    ensures |UploadTrace(records)| == 1 + BatchCount(|records|)
    ensures UploadTrace(records)[0] == TruncateCall
    ensures forall k :: 1 <= k < |UploadTrace(records)| ==>
              UploadTrace(records)[k] == InsertCall(Batch(records, k - 1))
  {
  }

  /** Inserting batches after existing rows appends their records in order. */
  lemma {:induction false} ReplayInserts(rows: seq<Record>, bs: seq<seq<Record>>)
    ensures Replay(rows, InsertCalls(bs)) == rows + Flatten(bs)
    decreases |bs|
  {
    if bs != [] {
      var n := |bs| - 1;
      var calls := InsertCalls(bs);
      assert calls[..n] == InsertCalls(bs[..n]);
      ReplayInserts(rows, bs[..n]);
    }
  }

  /** A truncate wipes whatever came before it. */
  lemma {:induction false} ReplayAfterTruncate(rows: seq<Record>, calls: seq<Call>)
    ensures Replay(rows, [TruncateCall] + calls) == Replay([], calls)
    decreases |calls|
  {
    if calls != [] {
      var n := |calls| - 1;
      assert ([TruncateCall] + calls)[..n + 1] == [TruncateCall] + calls[..n];
      ReplayAfterTruncate(rows, calls[..n]);
    } else {
      assert [TruncateCall] + calls == [TruncateCall];
    }
  }

  /** Replaying an upload's calls on any table leaves exactly the uploaded records. */
  lemma UploadTraceResult(rows: seq<Record>, records: seq<Record>)
    ensures Replay(rows, UploadTrace(records)) == records
  {
    ReplayAfterTruncate(rows, InsertCalls(Batches(records)));
    ReplayInserts([], Batches(records));
    FlattenBatches(records);
  }

  /**
   * The whole uploader on a loaded table: a KeyError or a ValueError leaves
   * the database untouched; otherwise the table is cleared and receives every
   * prepared record. The result is the error or the number of rows written.
   */
  method UploadTable(db: RecordTable, t: Table) returns (r: Result<nat, Failure>)
    requires WellFormed(t)
    modifies db
    ensures r.Err? ==> db.rows == old(db.rows) && db.log == old(db.log)
    ensures Prepare(t).Err? ==> r == Err(Prepare(t).error)
    ensures Prepare(t).Ok? && !Distinct(Renamed(t.columns)) ==> r == Err(ValueError)
    ensures Prepare(t).Ok? && Distinct(Renamed(t.columns)) ==>
              r == Ok(|t.rows|) && db.rows == Records(Prepare(t).value)
    ensures Prepare(t).Ok? && Distinct(Renamed(t.columns)) ==>
              db.log == old(db.log) + UploadTrace(Records(Prepare(t).value))
  {
    var prepared := Prepare(t);
    if prepared.Err? {
      return Err(prepared.error);
    }
    var records := Serialize(prepared.value);
    if records.Err? {
      return Err(records.error);
    }
    UploadRecords(db, records.value);
    return Ok(|records.value|);
  }
}
