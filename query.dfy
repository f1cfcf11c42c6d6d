/** What the hosted database's query builder returns for the two ways the
    application asks for one row. The rows that match the filters are given;
    the outcome depends only on how many there are. */
module Query {

  /** The `{ data, error }` pair of a one-row query: a row, no row (data
      `null`, no error), or an error (data `null`). */
  datatype Fetched<T> = Row(row: T) | NoRow | QueryError

  /** `.single()`: exactly one matching row, otherwise an error. */
  function Single<T>(matches: seq<T>): (f: Fetched<T>)
    ensures f.Row? <==> |matches| == 1
    ensures f.Row? ==> f.row == matches[0]
    ensures !f.Row? ==> f.QueryError?
  {
    if |matches| == 1 then Row(matches[0]) else QueryError
  }

  /** `.maybeSingle()`: no row when nothing matches, the row when one does,
      and an error when several do. */
  function MaybeSingle<T>(matches: seq<T>): (f: Fetched<T>)
    ensures f.NoRow? <==> |matches| == 0
    ensures f.Row? <==> |matches| == 1
    ensures f.QueryError? <==> |matches| > 1
    ensures f.Row? ==> f.row == matches[0]
  {
    if |matches| == 0 then NoRow
    else if |matches| == 1 then Row(matches[0])
    else QueryError
  }
}
