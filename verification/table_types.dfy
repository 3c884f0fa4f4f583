/** `tableTypes.ts`: the table status union and the table record. */
module TableTypes {
  import opened Common
  import opened Http

  /** `TableStatus`: exactly two values. */
  datatype TableStatus = Available | Occupied

  function StatusName(s: TableStatus): string {
    match s
    case Available => "available"
    case Occupied => "occupied"
  }

  /** Reads a status from its name; every other string is not a status. */
  function ParseStatus(name: string): (r: Option<TableStatus>)
    ensures r.Some? <==> name == "available" || name == "occupied"
    ensures r.Some? ==> StatusName(r.value) == name
  {
    if name == "available" then Some(Available)
    else if name == "occupied" then Some(Occupied)
    else None
  }

  /** Status names and statuses correspond one to one. */
  lemma StatusNameRoundTrip(s: TableStatus)
    ensures ParseStatus(StatusName(s)) == Some(s)
  {
  }

  /** `ITable`: an id, a name and a status that is always a `TableStatus`. */
  datatype Table = Table(id: Id, tablename: string, status: TableStatus)
}
