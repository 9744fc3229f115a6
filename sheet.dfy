/**
 * What the server gets back from the spreadsheet: a ragged grid of cell
 * strings (trailing empty cells and rows are not returned), and the HTTP
 * outcomes of its lookup endpoints.
 */
module Sheet {
  import opened Wrappers

  type Row = seq<string>
  type Grid = seq<Row>

  /** A `values.get` call: it fails, or answers with `values`, absent for an empty range. */
  datatype SheetRead = ReadFailed | Read(values: Option<Grid>)

  /** `response.data.values || []`. */
  function RowsOf(values: Option<Grid>): Grid {
    values.GetOr([])
  }

  /** An endpoint's answer: success with a body, 404, or 500. */
  datatype Response<+T> = Ok(body: T) | NotFound | ServerError {
    function Status(): nat {
      match this
      case Ok(_) => 200
      case NotFound => 404
      case ServerError => 500
    }
  }
}
