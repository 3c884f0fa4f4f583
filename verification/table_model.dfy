/**
 * `tableModel.ts`: the table schema. `tablename` is required, `status` must
 * be one of the two `TableStatus` names and defaults to "available", and
 * every document carries `createdAt`/`updatedAt` timestamps.
 */
module TableModel {
  import opened Common
  import opened Text
  import opened Http
  import opened Collaborators
  import opened Schema
  import Store
  import opened TableTypes

  const ModelName := "Table"
  const DefaultStatus := Available

  /** A stored table document: the `ITable` fields plus the schema's timestamps. */
  datatype TableDoc = TableDoc(table: Table, createdAt: int, updatedAt: int)

  function IdOf(d: TableDoc): Id { d.table.id }

  function CreatedAt(d: TableDoc): int { d.createdAt }

  /** The enum validator's default message. */
  function EnumError(value: string): PathError {
    PathError("status", "`" + value + "` is not a valid enum value for path `status`.")
  }

  /** The status a document gets: the default when absent, otherwise the named status if it is one. */
  function CastStatus(status: Option<string>): (r: Result<TableStatus, PathError>)
    ensures status.None? ==> r == Ok(DefaultStatus)
    ensures status.Some? ==> (r.Ok? <==> ParseStatus(status.value).Some?)
    ensures status.Some? && r.Ok? ==> StatusName(r.value) == status.value
  {
    match status
    case None => Ok(DefaultStatus)
    case Some(name) =>
      match ParseStatus(name)
      case Some(s) => Ok(s)
      case None => Err(EnumError(name))
  }

  /** Validation of a new table document, with the status defaulted. */
  function ValidateNew(tablename: Option<string>, status: Option<string>)
    : (r: Result<(string, TableStatus), ValidationFailure>)
    ensures r.Ok? <==> Truthy(tablename) && (status.None? || ParseStatus(status.value).Some?)
    ensures r.Ok? ==> r.value.0 == tablename.value && CastStatus(status) == Ok(r.value.1)
    ensures r.Err? ==> r.error.model == ModelName && |r.error.errors| > 0
  {
    var checks := [Required("tablename", tablename, DefaultRequiredMessage("tablename")),
                   match CastStatus(status) case Ok(_) => None case Err(e) => Some(e)];
    var errors := Collect(checks);
    assert errors == [] <==> checks[0].None? && checks[1].None?;
    if errors == [] then Ok((tablename.value, CastStatus(status).value))
    else Err(ValidationFailure(ModelName, errors))
  }

  /** `tableModel.create({ tablename, status })`: validates, stamps and inserts. */
  function Create(tables: seq<TableDoc>, tablename: Option<string>, status: Option<string>, w: World)
    : (r: Result<seq<TableDoc>, Thrown>)
    ensures ValidateNew(tablename, status).Err? ==> r == Err(AsThrown(ValidateNew(tablename, status).error))
    ensures r.Ok? ==> var v := ValidateNew(tablename, status).value;
                      r.value == Store.Insert(tables, TableDoc(Table(w.freshId, v.0, v.1), w.now, w.now))
                      && w.freshId !in Store.ToMap(tables, IdOf)
    ensures ValidateNew(tablename, status).Ok? && w.freshId in Store.ToMap(tables, IdOf) ==> r == Err(Store.DuplicateKey)
    ensures ValidateNew(tablename, status).Ok? && w.freshId !in Store.ToMap(tables, IdOf) ==> r.Ok?
  {
    match ValidateNew(tablename, status)
    case Err(f) => Err(AsThrown(f))
    case Ok(v) =>
      if w.freshId in Store.ToMap(tables, IdOf) then Err(Store.DuplicateKey)
      else Ok(Store.Insert(tables, TableDoc(Table(w.freshId, v.0, v.1), w.now, w.now)))
  }

  /** The schema paths an update body names; strict mode drops every other field. */
  datatype TableUpdate = TableUpdate(tablename: Option<string>, status: Option<string>)

  function UpdateOf(body: map<string, string>): (u: TableUpdate)
    ensures u.tablename == Field(body, "tablename") && u.status == Field(body, "status")
  {
    TableUpdate(Field(body, "tablename"), Field(body, "status"))
  }

  /** Update validators: only the paths present in the update are checked. */
  function ValidateUpdate(u: TableUpdate): (r: Option<ValidationFailure>)
    ensures r.None? <==> (u.tablename.None? || u.tablename.value != "")
                         && (u.status.None? || ParseStatus(u.status.value).Some?)
    ensures r.Some? ==> r.value.model == ModelName
  {
    var checks := [if u.tablename.Some? then Required("tablename", u.tablename, DefaultRequiredMessage("tablename")) else None,
                   if u.status.Some? then (match CastStatus(u.status) case Ok(_) => None case Err(e) => Some(e)) else None];
    var errors := Collect(checks);
    assert errors == [] <==> checks[0].None? && checks[1].None?;
    if errors == [] then None else Some(ValidationFailure(ModelName, errors))
  }

  /** Merges the supplied fields into a document and stamps `updatedAt`. */
  function ApplyUpdate(d: TableDoc, u: TableUpdate, now: int): (r: TableDoc)
    requires ValidateUpdate(u).None?
    ensures r.table.id == d.table.id && r.createdAt == d.createdAt && r.updatedAt == now
    ensures u.tablename.None? ==> r.table.tablename == d.table.tablename
    ensures u.tablename.Some? ==> r.table.tablename == u.tablename.value
    ensures u.status.None? ==> r.table.status == d.table.status
    ensures u.status.Some? ==> StatusName(r.table.status) == u.status.value
  {
    var name := if u.tablename.Some? then u.tablename.value else d.table.tablename;
    var status := if u.status.Some? then CastStatus(u.status).value else d.table.status;
    TableDoc(Table(d.table.id, name, status), d.createdAt, now)
  }
}
