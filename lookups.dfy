/**
 * The read-only lookups of the server: `isOperatorNameExists` behind
 * `POST /login`, and the row filter of `GET /symbols`. The operator name from
 * the request is `None` when the body or query lacks it; calling `trim` on it
 * then throws, which the handlers turn into a 500.
 */
module Lookups {
  import opened Wrappers
  import opened JsString
  import opened Sheet

  /** `rows.flat()`: all cells, row after row. */
  function Flat(rows: Grid): seq<string> {
    if rows == [] then [] else rows[0] + Flat(rows[1..])
  }

  lemma {:induction false} FlatMembers(rows: Grid, x: string)
    ensures x in Flat(rows) <==> exists i, j :: 0 <= i < |rows| && 0 <= j < |rows[i]| && rows[i][j] == x
  {
    if rows != [] {
      FlatMembers(rows[1..], x);
      if x in Flat(rows[1..]) {
        var i, j :| 0 <= i < |rows[1..]| && 0 <= j < |rows[1..][i]| && rows[1..][i][j] == x;
        assert rows[i + 1][j] == x;
      }
      if x in rows[0] {
        var j :| 0 <= j < |rows[0]| && rows[0][j] == x;
        assert rows[0][j] == x;
      }
      if exists i, j :: 0 <= i < |rows| && 0 <= j < |rows[i]| && rows[i][j] == x {
        var i, j :| 0 <= i < |rows| && 0 <= j < |rows[i]| && rows[i][j] == x;
        if i > 0 {
          assert rows[1..][i - 1][j] == x;
        }
      }
    }
  }

  /** `rows.flat().includes(operatorName.trim())`: the trimmed name among the raw cells. */
  predicate OperatorExists(values: Option<Grid>, operatorName: string) {
    Trim(operatorName) in Flat(RowsOf(values))
  }

  /**
   * The operator exists exactly when some cell of the fetched column, as
   * stored and not trimmed, equals the trimmed name; an absent range has no cells.
   */
  lemma OperatorExistsIff(values: Option<Grid>, operatorName: string)
    ensures OperatorExists(values, operatorName) <==>
      exists i, j :: 0 <= i < |RowsOf(values)| && 0 <= j < |RowsOf(values)[i]| &&
        RowsOf(values)[i][j] == Trim(operatorName)
    ensures values == None ==> !OperatorExists(values, operatorName)
  {
    FlatMembers(RowsOf(values), Trim(operatorName));
  }

  /** The cells are not trimmed: a cell with whitespace at either end never matches any name. */
  lemma PaddedCellNeverMatches(values: Option<Grid>, operatorName: string)
    requires forall i, j :: 0 <= i < |RowsOf(values)| && 0 <= j < |RowsOf(values)[i]| ==>
      !IsTrimmed(RowsOf(values)[i][j])
    ensures !OperatorExists(values, operatorName)
  {
    FlatMembers(RowsOf(values), Trim(operatorName));
  }

  /** The input is trimmed: whitespace around a name does not change the answer. */
  lemma SurroundingWhitespaceIgnored(values: Option<Grid>, p: string, name: string, q: string)
    requires AllWhitespace(p) && AllWhitespace(q) && IsTrimmed(name)
    ensures OperatorExists(values, p + name + q) == OperatorExists(values, name)
  {
    TrimKeepsCore(p, name, q);
    assert [] + name + [] == name;
    TrimKeepsCore([], name, []);
  }

  /** `POST /login`: 200 when the operator exists, 404 when not, 500 on a failed read or a missing name. */
  function Login(read: SheetRead, operatorName: Option<string>): (r: Response<()>)
    ensures r.ServerError? <==> read.ReadFailed? || operatorName.None?
    ensures r.Ok? <==> (
      && read.Read? && operatorName.Some?
      && exists i, j :: 0 <= i < |RowsOf(read.values)| && 0 <= j < |RowsOf(read.values)[i]| &&
           RowsOf(read.values)[i][j] == Trim(operatorName.value))
  {
    if read.ReadFailed? || operatorName.None? then ServerError
    else
      OperatorExistsIff(read.values, operatorName.value);
      if OperatorExists(read.values, operatorName.value) then Ok(()) else NotFound
  }

  /** `row => row[0]?.trim() === operatorName.trim()`: an absent first cell never matches. */
  predicate BelongsTo(row: Row, operatorName: string) {
    |row| > 0 && Trim(row[0]) == Trim(operatorName)
  }

  /** `rows.filter(...)` for the `/symbols` endpoint. */
  function SymbolRows(rows: Grid, operatorName: string): (r: Grid)
    ensures |r| <= |rows|
  {
    if rows == [] then []
    else if BelongsTo(rows[0], operatorName) then [rows[0]] + SymbolRows(rows[1..], operatorName)
    else SymbolRows(rows[1..], operatorName)
  }

  /** Every matching row is kept: membership is exactly "in the sheet and belongs to the operator". */
  lemma {:induction false} SymbolRowsMembers(rows: Grid, operatorName: string, row: Row)
    ensures row in SymbolRows(rows, operatorName) <==> row in rows && BelongsTo(row, operatorName)
  {
    if rows != [] {
      SymbolRowsMembers(rows[1..], operatorName, row);
      assert row in rows <==> row == rows[0] || row in rows[1..];
    }
  }

  /**
   * The filter keeps source order: the result for a sheet is the result for
   * its first part followed by the result for the rest.
   */
  lemma {:induction false} SymbolRowsAppend(a: Grid, b: Grid, operatorName: string)
    ensures SymbolRows(a + b, operatorName) == SymbolRows(a, operatorName) + SymbolRows(b, operatorName)
  {
    if a == [] {
      assert a + b == b;
    } else {
      var ab := a + b;
      assert ab[0] == a[0];
      assert ab[1..] == a[1..] + b;
      SymbolRowsAppend(a[1..], b, operatorName);
      var rest := SymbolRows(a[1..], operatorName);
      var tail := SymbolRows(b, operatorName);
      if BelongsTo(a[0], operatorName) {
        assert SymbolRows(ab, operatorName) == [a[0]] + (rest + tail);
        assert SymbolRows(a, operatorName) == [a[0]] + rest;
        assert [a[0]] + (rest + tail) == [a[0]] + rest + tail;
      } else {
        assert SymbolRows(ab, operatorName) == rest + tail;
        assert SymbolRows(a, operatorName) == rest;
      }
    }
  }

  /**
   * `GET /symbols`: the matching rows in sheet order, 404 when there are none.
   * With the name missing, `trim` throws only once the filter's callback runs,
   * so an empty sheet still answers 404.
   */
  function ListSymbols(read: SheetRead, operatorName: Option<string>): (r: Response<Grid>)
    ensures read.ReadFailed? ==> r.ServerError?
    ensures read.Read? && operatorName.None? ==>
      (if RowsOf(read.values) == [] then r.NotFound? else r.ServerError?)
    ensures read.Read? && operatorName.Some? && r.Ok? ==>
      r.body == SymbolRows(RowsOf(read.values), operatorName.value)
    ensures read.Read? && operatorName.Some? ==>
      && !r.ServerError?
      && (r.Ok? ==> r.body != [] && forall row :: row in r.body ==> row in RowsOf(read.values) && BelongsTo(row, operatorName.value))
      && (r.NotFound? ==> forall row :: row in RowsOf(read.values) ==> !BelongsTo(row, operatorName.value))
  {
    if read.ReadFailed? then ServerError
    else
      var rows := RowsOf(read.values);
      if rows == [] then NotFound
      else if operatorName.None? then ServerError
      else
        var symbols := SymbolRows(rows, operatorName.value);
        if symbols == [] then
          assert forall row :: row in rows ==> !BelongsTo(row, operatorName.value) by {
            forall row | row in rows ensures !BelongsTo(row, operatorName.value) {
              SymbolRowsMembers(rows, operatorName.value, row);
            }
          }
          NotFound
        else
          assert forall row :: row in symbols ==> row in rows && BelongsTo(row, operatorName.value) by {
            forall row | row in symbols ensures row in rows && BelongsTo(row, operatorName.value) {
              SymbolRowsMembers(rows, operatorName.value, row);
            }
          }
          Ok(symbols)
  }
}
