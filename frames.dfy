/**
 * The part of a pandas DataFrame both scripts touch: named columns and rows of
 * cells. CSV parsing and type inference are outside the model; a parsed table
 * arrives as a value of this type.
 */
module Frames {
  import opened Wrappers

  /** One cell: a missing value (NaN/None), text, or a boolean. */
  datatype Cell = Missing | Text(text: string) | Flag(flag: bool)

  type Row = seq<Cell>

  /** A table: its column names, in order, and its rows. */
  datatype Table = Table(columns: seq<string>, rows: seq<Row>)

  /** Every row has one cell per column, as in any DataFrame. */
  predicate WellFormed(t: Table) {
    forall i :: 0 <= i < |t.rows| ==> |t.rows[i]| == |t.columns|
  }

  /** The position of the first column called `name`. */
  function IndexOf(columns: seq<string>, name: string): (r: Option<nat>)
    ensures r.Some? ==> r.value < |columns| && columns[r.value] == name
    ensures r.Some? ==> forall k :: 0 <= k < r.value ==> columns[k] != name
    ensures r.None? <==> name !in columns
  {
    if columns == [] then None
    else if columns[0] == name then Some(0)
    else match IndexOf(columns[1..], name)
      case None => None
      case Some(k) => Some(k + 1)
  }

  /** A name with no earlier column of the same name is found at its own position. */
  lemma {:induction false} IndexOfAt(columns: seq<string>, k: nat)
    requires k < |columns|
    requires forall j :: 0 <= j < k ==> columns[j] != columns[k]
    ensures IndexOf(columns, columns[k]) == Some(k)
  {
    if columns[0] != columns[k] {
      assert columns[1..][k - 1] == columns[k];
      IndexOfAt(columns[1..], k - 1);
    }
  }

  /** No two columns share a name. */
  predicate Distinct(names: seq<string>) {
    forall a, b :: 0 <= a < b < |names| ==> names[a] != names[b]
  }

  /** `df[name][i]`: the cell of row `i` under the first column called `name`. */
  function Get(t: Table, i: nat, name: string): Cell
    requires WellFormed(t) && i < |t.rows| && name in t.columns
  {
    t.rows[i][IndexOf(t.columns, name).value]
  }

  /** With distinct column names, reading column `k`'s name gives column `k`'s cell. */
  lemma GetAt(t: Table, i: nat, k: nat)
    requires WellFormed(t) && Distinct(t.columns) && i < |t.rows| && k < |t.columns|
    ensures Get(t, i, t.columns[k]) == t.rows[i][k]
  {
    IndexOfAt(t.columns, k);
  }

  /**
   * `df[col] = df[col].apply(f)`: the table with `f` applied to every cell of
   * column `c` and every other cell as it was.
   */
  function MapColumn(t: Table, c: nat, f: Cell -> Cell): (r: Table)
    requires WellFormed(t) && c < |t.columns|
    ensures r.columns == t.columns && |r.rows| == |t.rows| && WellFormed(r)
    ensures forall i, k :: 0 <= i < |t.rows| && 0 <= k < |t.columns| ==>
              r.rows[i][k] == (if k == c then f(t.rows[i][k]) else t.rows[i][k])
  {
    Table(t.columns, seq(|t.rows|, i requires 0 <= i < |t.rows| => t.rows[i][c := f(t.rows[i][c])]))
  }

  /** A record as `to_json(orient="records")` yields it: each column name mapped to its cell. */
  type Record = map<string, Cell>

  /** Row `i` as a record: every column name, with the cell `df[name][i]`. */
  function RowRecord(t: Table, i: nat): (r: Record)
    requires WellFormed(t) && i < |t.rows|
    ensures r.Keys == set name | name in t.columns
    ensures forall name :: name in t.columns ==> r[name] == Get(t, i, name)
  {
    map name | name in t.columns :: Get(t, i, name)
  }

  /** All rows as records, in row order. */
  function Records(t: Table): (r: seq<Record>)
    requires WellFormed(t)
    ensures |r| == |t.rows|
    ensures forall i :: 0 <= i < |t.rows| ==> r[i] == RowRecord(t, i)
  {
    seq(|t.rows|, i requires 0 <= i < |t.rows| => RowRecord(t, i))
  }

  /**
   * With distinct column names, record `i` holds under column `k`'s name the
   * cell of row `i`, column `k`: turning rows into records loses no cell and
   * overwrites none.
   */
  lemma RecordsAt(t: Table)
    requires WellFormed(t) && Distinct(t.columns)
    ensures forall i, k :: 0 <= i < |t.rows| && 0 <= k < |t.columns| ==>
              t.columns[k] in Records(t)[i] && Records(t)[i][t.columns[k]] == t.rows[i][k]
  {
    forall i, k | 0 <= i < |t.rows| && 0 <= k < |t.columns|
      ensures t.columns[k] in Records(t)[i] && Records(t)[i][t.columns[k]] == t.rows[i][k]
    {
      GetAt(t, i, k);
    }
  }
}
