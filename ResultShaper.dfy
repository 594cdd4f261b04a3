/**
 * The list processing of `_format_output_data`, the same code in
 * `src/main.py` and `vehicle_detection_by_size.py`: the first result row
 * names the columns, every later row is a data row whose absent cells read
 * as "", and the rows whose `vehicle_type` is "ignore" are dropped.
 */
module ResultShaper {
  import opened Wrappers

  /** One cell of a result row: its `VarCharValue`, absent when the service leaves it out. */
  type Cell = Option<string>

  /** The table built from a result: column names and data rows of strings. */
  datatype Table = Table(columns: seq<string>, rows: seq<seq<string>>)

  /** What makes shaping raise instead of returning a table. */
  datatype ShapeError =
    | NoRows            // `rows[0]` on an empty list
    | MissingColumnName // a header cell without `VarCharValue`
    | WidthMismatch     // the data rows do not fit the header
    | NoCategoryColumn  // no `vehicle_type` column to filter on

  /** The column the rows are filtered on. */
  const CategoryColumn := "vehicle_type"
  /** The category whose rows are dropped. */
  const Ignored := "ignore"

  /** The column names: every cell's value in order, or nothing when a cell has none. */
  function Header(cells: seq<Cell>): (h: Option<seq<string>>)
    ensures h.Some? <==> forall j :: 0 <= j < |cells| ==> cells[j].Some?
    ensures h.Some? ==> |h.value| == |cells| && forall j :: 0 <= j < |cells| ==> h.value[j] == cells[j].value
  {
    if cells == [] then Some([])
    else if cells[0].None? then None
    else match Header(cells[1..])
      case None => None
      case Some(t) => Some([cells[0].value] + t)
  }

  /** The values of a data row, "" for an absent one. */
  function Values(cells: seq<Cell>): (vs: seq<string>)
    ensures |vs| == |cells|
    ensures forall j :: 0 <= j < |cells| ==> vs[j] == cells[j].GetOr("")
  {
    if cells == [] then [] else [cells[0].GetOr("")] + Values(cells[1..])
  }

  /** One data row per result row, in order. */
  function DataRows(rows: seq<seq<Cell>>): (d: seq<seq<string>>)
    ensures |d| == |rows|
    ensures forall i :: 0 <= i < |rows| ==> d[i] == Values(rows[i])
  {
    if rows == [] then [] else [Values(rows[0])] + DataRows(rows[1..])
  }

  /** The position of the first column called `name`, if there is one. */
  function ColumnIndex(columns: seq<string>, name: string): (k: Option<nat>)
    ensures k.None? <==> name !in columns
    ensures k.Some? ==>
      k.value < |columns| && columns[k.value] == name && forall j :: 0 <= j < k.value ==> columns[j] != name
  {
    if columns == [] then None
    else if columns[0] == name then Some(0)
    else match ColumnIndex(columns[1..], name)
      case None => None
      case Some(j) => Some(j + 1)
  }

  /** Every row has a cell in column `k`. */
  predicate HasColumn(rows: seq<seq<string>>, k: nat) {
    forall i :: 0 <= i < |rows| ==> k < |rows[i]|
  }

  /** The rows whose cell in column `k` is not "ignore", in their order. */
  function KeepRows(rows: seq<seq<string>>, k: nat): (kept: seq<seq<string>>)
    requires HasColumn(rows, k)
    ensures |kept| <= |rows|
  {
    if rows == [] then []
    else (if rows[0][k] != Ignored then [rows[0]] else []) + KeepRows(rows[1..], k)
  }

  /** A row is kept exactly when it is one of the rows and its category is not "ignore". */
  lemma {:induction false} KeepRowsMembers(rows: seq<seq<string>>, k: nat)
    requires HasColumn(rows, k)
    ensures forall row :: row in KeepRows(rows, k) <==> row in rows && row[k] != Ignored
  {
    if rows != [] {
      KeepRowsMembers(rows[1..], k);
      assert rows == [rows[0]] + rows[1..];
    }
  }

  /** Filtering keeps the order of the rows: it filters each part of a split on its own. */
  lemma {:induction false} KeepRowsAppend(a: seq<seq<string>>, b: seq<seq<string>>, k: nat)
    requires HasColumn(a, k) && HasColumn(b, k)
    ensures HasColumn(a + b, k)
    ensures KeepRows(a + b, k) == KeepRows(a, k) + KeepRows(b, k)
  {
    if a != [] {
      var pick := if a[0][k] != Ignored then [a[0]] else [];
      assert (a + b)[1..] == a[1..] + b;
      KeepRowsAppend(a[1..], b, k);
      calc {
        KeepRows(a + b, k);
        pick + KeepRows(a[1..] + b, k);
        pick + (KeepRows(a[1..], k) + KeepRows(b, k));
        (pick + KeepRows(a[1..], k)) + KeepRows(b, k);
        KeepRows(a, k) + KeepRows(b, k);
      }
    } else {
      assert a + b == b;
    }
  }

  /** With no "ignore" row, filtering changes nothing. */
  lemma {:induction false} KeepRowsNoIgnored(rows: seq<seq<string>>, k: nat)
    requires HasColumn(rows, k)
    requires forall i :: 0 <= i < |rows| ==> rows[i][k] != Ignored
    ensures KeepRows(rows, k) == rows
  {
    if rows != [] {
      KeepRowsNoIgnored(rows[1..], k);
    }
  }

  /** Every data row has one value per column. */
  predicate Fits(rows: seq<seq<string>>, width: nat) {
    forall i :: 0 <= i < |rows| ==> |rows[i]| == width
  }

  /**
   * Header from row 0, data rows from rows 1 onward, the table built with
   * those columns, then the rows of category "ignore" removed.
   */
  function FormatOutputData(rows: seq<seq<Cell>>): (r: Result<Table, ShapeError>)
    ensures r == Failure(NoRows) <==> rows == []
    ensures r.Success? <==>
      rows != [] && Header(rows[0]).Some? && Fits(DataRows(rows[1..]), |rows[0]|) &&
      CategoryColumn in Header(rows[0]).value
    ensures r.Success? ==>
      var t := r.value;
      Header(rows[0]) == Some(t.columns) &&
      var k := ColumnIndex(t.columns, CategoryColumn).value;
      HasColumn(DataRows(rows[1..]), k) &&
      t.rows == KeepRows(DataRows(rows[1..]), k) &&
      forall row :: row in t.rows <==> row in DataRows(rows[1..]) && row[k] != Ignored
  {
    if rows == [] then Failure(NoRows)
    else match Header(rows[0])
      case None => Failure(MissingColumnName)
      case Some(header) =>
        var data := DataRows(rows[1..]);
        if !Fits(data, |header|) then Failure(WidthMismatch)
        else match ColumnIndex(header, CategoryColumn)
          case None => Failure(NoCategoryColumn)
          case Some(k) =>
            KeepRowsMembers(data, k);
            Success(Table(header, KeepRows(data, k)))
  }

  /**
   * A header, a "car" row and an "ignore" row give a table with the header
   * as column names and only the "car" row.
   */
  lemma IgnoreRowDropped()
    ensures FormatOutputData([
      [Some("vehicle_type"), Some("1-50")],
      [Some("car"), Some("97.5")],
      [Some("ignore"), None]]) ==
      Success(Table(["vehicle_type", "1-50"], [["car", "97.5"]]))
  {
    var rows: seq<seq<Cell>> := [[Some("vehicle_type"), Some("1-50")], [Some("car"), Some("97.5")], [Some("ignore"), None]];
    var head: seq<Cell> := [Some("vehicle_type"), Some("1-50")];
    assert forall j :: 0 <= j < |head| ==> head[j].Some?;
    assert Header(head).value == ["vehicle_type", "1-50"];
    var car: seq<Cell> := [Some("car"), Some("97.5")];
    var ign: seq<Cell> := [Some("ignore"), None];
    assert Values(car) == ["car", "97.5"];
    assert Values(ign) == ["ignore", ""];
    var data := DataRows(rows[1..]);
    assert data == [["car", "97.5"], ["ignore", ""]];
    assert ColumnIndex(["vehicle_type", "1-50"], CategoryColumn) == Some(0);
    assert KeepRows(data, 0) == [["car", "97.5"]] by {
      assert data[1..][1..] == [];
    }
  }
}
