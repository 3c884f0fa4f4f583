/**
 * `tableController.ts`: create, list, update and delete tables, each a
 * transition of the table collection that yields one outcome. Every failing
 * transition leaves the collection as it was.
 */
module TableController {
  import opened Common
  import opened Text
  import opened Http
  import opened Collaborators
  import Store
  import opened TableTypes
  import opened TableModel

  type Tables = seq<TableDoc>

  /** The JSON bodies the table handlers send. */
  datatype TableBody = Message(message: string) | TableList(tables: Tables)

  const NameRequired := "Table name is required"
  const AlreadyExists := "Table already exists"
  const Created := "New Table Created Successfully"
  const CreateFailed := "Failed to create table"
  const FetchFailed := "Error while fetching tables"
  const NotFound := "Table not found"
  const Updated := "Table Updated Successfully"
  const UpdateFailed := "Failed to update table"
  const Deleted := "Table Deleted Successfully"
  const DeleteFailed := "Failed to delete table"

  /** `findOne({ tablename })`. */
  function FindByName(tables: Tables, name: string): (r: Option<nat>)
    ensures r.Some? ==> r.value < |tables| && tables[r.value].table.tablename == name
    ensures r.None? <==> forall j :: 0 <= j < |tables| ==> tables[j].table.tablename != name
  {
    Store.FindWhere(tables, (d: TableDoc) => d.table.tablename == name)
  }

  /** No two tables share a name. */
  predicate UniqueNames(tables: Tables) {
    forall i, j :: 0 <= i < j < |tables| ==> tables[i].table.tablename != tables[j].table.tablename
  }

  /** `createTable`. */
  function CreateTable(req: Request, tables: Tables, w: World): (r: Handled<Tables, TableBody>)
    ensures r.outcome.Terminal()
    ensures !r.outcome.Respond? ==> r.store == tables
    ensures !Truthy(Field(req.body, "tablename")) ==> r.outcome == Fail(BAD_REQUEST, NameRequired)
    ensures Truthy(Field(req.body, "tablename")) && w.fault.Some? ==> r.outcome == Fail(INTERNAL_SERVER_ERROR, CreateFailed)
    ensures (Truthy(Field(req.body, "tablename")) && w.fault.None? && FindByName(tables, req.body["tablename"]).Some?)
            ==> r.outcome == Fail(BAD_REQUEST, AlreadyExists)
    ensures r.outcome.Respond? ==>
              && r.outcome == Respond(CREATED, Message(Created))
              && FindByName(tables, req.body["tablename"]).None?
              && CastStatus(Field(req.body, "status")).Ok?
              && r.store == Store.Insert(tables, TableDoc(Table(w.freshId, req.body["tablename"],
                                                                CastStatus(Field(req.body, "status")).value),
                                                          w.now, w.now))
              && w.freshId !in Store.ToMap(tables, IdOf)
    ensures (Truthy(Field(req.body, "tablename")) && w.fault.None? && FindByName(tables, req.body["tablename"]).None?
             && CastStatus(Field(req.body, "status")).Ok? && w.freshId !in Store.ToMap(tables, IdOf))
            ==> r == Handled(Respond(CREATED, Message(Created)),
                             Store.Insert(tables, TableDoc(Table(w.freshId, req.body["tablename"],
                                                                 CastStatus(Field(req.body, "status")).value),
                                                           w.now, w.now)))
    ensures (Truthy(Field(req.body, "tablename")) && w.fault.None? && FindByName(tables, req.body["tablename"]).None?
             && (CastStatus(Field(req.body, "status")).Err? || w.freshId in Store.ToMap(tables, IdOf)))
            ==> r.outcome == Fail(INTERNAL_SERVER_ERROR, CreateFailed)
    ensures r.outcome.Fail? ==> r.outcome.status in {BAD_REQUEST, INTERNAL_SERVER_ERROR}
  {
    var tablename := Field(req.body, "tablename");
    if !Truthy(tablename) then Handled(Fail(BAD_REQUEST, NameRequired), tables)
    else if w.fault.Some? then Handled(Fail(INTERNAL_SERVER_ERROR, CreateFailed), tables)
    else if FindByName(tables, tablename.value).Some? then Handled(Fail(BAD_REQUEST, AlreadyExists), tables)
    else
      match TableModel.Create(tables, tablename, Field(req.body, "status"), w)
      case Err(_) => Handled(Fail(INTERNAL_SERVER_ERROR, CreateFailed), tables)
      case Ok(tables') => Handled(Respond(CREATED, Message(Created)), tables')
  }

  /** A successful create adds exactly one table under the fresh id: a map update. */
  lemma CreateTableIsMapUpdate(req: Request, tables: Tables, w: World)
    requires Store.UniqueKeys(tables, IdOf)
    requires CreateTable(req, tables, w).outcome.Respond?
    ensures var r := CreateTable(req, tables, w);
            && Store.UniqueKeys(r.store, IdOf)
            && |r.store| == |tables| + 1
            && Store.ToMap(r.store, IdOf) == Store.ToMap(tables, IdOf)[w.freshId := r.store[|tables|]]
            && r.store[|tables|].table.tablename == req.body["tablename"]
  {
    var r := CreateTable(req, tables, w);
    Store.InsertIsMapUpdate(tables, IdOf, r.store[|tables|]);
  }

  /** Sequential creates keep table names unique. */
  lemma CreateTableKeepsNamesUnique(req: Request, tables: Tables, w: World)
    requires UniqueNames(tables)
    ensures UniqueNames(CreateTable(req, tables, w).store)
  {
    var r := CreateTable(req, tables, w);
    if r.outcome.Respond? {
      var name := req.body["tablename"];
      assert forall j :: 0 <= j < |tables| ==> tables[j].table.tablename != name;
      forall i, j | 0 <= i < j < |r.store|
        ensures r.store[i].table.tablename != r.store[j].table.tablename
      {
        assert r.store[i] == tables[i];
      }
    }
  }

  /** Creating the same name twice: the second attempt is rejected and changes nothing. */
  lemma CreateSameNameTwice(req: Request, tables: Tables, w1: World, w2: World)
    requires CreateTable(req, tables, w1).outcome.Respond?
    requires w2.fault.None?
    ensures var once := CreateTable(req, tables, w1).store;
            CreateTable(req, once, w2) == Handled(Fail(BAD_REQUEST, AlreadyExists), once)
  {
    var once := CreateTable(req, tables, w1).store;
    assert once[|tables|].table.tablename == req.body["tablename"];
  }

  /** `getAllTables`: every stored table, in natural order, unpaginated. */
  function GetAllTables(tables: Tables, w: World): (r: Handled<Tables, TableBody>)
    ensures r.store == tables
    ensures w.fault.None? <==> r.outcome == Respond(OK, TableList(tables))
    ensures w.fault.Some? <==> r.outcome == Fail(INTERNAL_SERVER_ERROR, FetchFailed)
  {
    if w.fault.Some? then Handled(Fail(INTERNAL_SERVER_ERROR, FetchFailed), tables)
    else Handled(Respond(OK, TableList(tables)), tables)
  }

  /** A route id that is present but cannot be cast to an object id: the query throws a `CastError`. */
  predicate Uncastable(id: Option<string>) {
    id.Some? && Store.CastId(id.value).None?
  }

  /** The document a route id names once cast, if any; a missing or uncastable id names none. */
  function FindTable(tables: Tables, id: Option<string>): (r: Option<nat>)
    ensures r.Some? ==> && id.Some? && Store.CastId(id.value).Some? && r.value < |tables|
                        && IdOf(tables[r.value]) == Store.CastId(id.value).value
    ensures r.None? <==> id.None? || Uncastable(id) || Store.CastId(id.value).value !in Store.ToMap(tables, IdOf)
  {
    match id
    case None => None
    case Some(k) =>
      match Store.CastId(k)
      case None => None
      case Some(c) => Store.Find(tables, IdOf, c)
  }

  /**
   * `updateTable`: `findByIdAndUpdate(id, body, { new: true, runValidators: true })`.
   * The id is cast and the update validators run before the lookup, so an
   * id that is not an object id, or a rejected update, is a 500 even when no
   * such table exists; there is no duplicate-name check.
   */
  function UpdateTable(req: Request, tables: Tables, w: World): (r: Handled<Tables, TableBody>)
    ensures r.outcome.Terminal()
    ensures !r.outcome.Respond? ==> r.store == tables
    ensures (w.fault.Some? || Uncastable(Field(req.params, "id")) || ValidateUpdate(UpdateOf(req.body)).Some?)
            ==> r.outcome == Fail(INTERNAL_SERVER_ERROR, UpdateFailed)
    ensures (w.fault.None? && !Uncastable(Field(req.params, "id")) && ValidateUpdate(UpdateOf(req.body)).None?
             && FindTable(tables, Field(req.params, "id")).None?)
            ==> r.outcome == Fail(NOT_FOUND, NotFound)
    ensures r.outcome.Respond? ==>
              && r.outcome == Respond(OK, Message(Updated))
              && FindTable(tables, Field(req.params, "id")).Some?
              && ValidateUpdate(UpdateOf(req.body)).None?
              && var i := FindTable(tables, Field(req.params, "id")).value;
              r.store == Store.ReplaceAt(tables, i, ApplyUpdate(tables[i], UpdateOf(req.body), w.now))
    ensures (w.fault.None? && ValidateUpdate(UpdateOf(req.body)).None? && FindTable(tables, Field(req.params, "id")).Some?)
            ==> var i := FindTable(tables, Field(req.params, "id")).value;
                r == Handled(Respond(OK, Message(Updated)),
                             Store.ReplaceAt(tables, i, ApplyUpdate(tables[i], UpdateOf(req.body), w.now)))
  {
    var update := UpdateOf(req.body);
    if Uncastable(Field(req.params, "id")) || ValidateUpdate(update).Some? || w.fault.Some? then
      Handled(Fail(INTERNAL_SERVER_ERROR, UpdateFailed), tables)
    else
      match FindTable(tables, Field(req.params, "id"))
      case None => Handled(Fail(NOT_FOUND, NotFound), tables)
      case Some(i) => Handled(Respond(OK, Message(Updated)), Store.ReplaceAt(tables, i, ApplyUpdate(tables[i], update, w.now)))
  }

  /**
   * A successful update changes only the named table, and in it only the
   * supplied fields and `updatedAt`: every other table is as it was.
   */
  lemma UpdateTableFrame(req: Request, tables: Tables, w: World)
    requires Store.UniqueKeys(tables, IdOf)
    requires UpdateTable(req, tables, w).outcome.Respond?
    ensures var r := UpdateTable(req, tables, w);
            var id := Store.CastId(req.params["id"]).value;
            var before := Store.ToMap(tables, IdOf)[id];
            var after := Store.ToMap(r.store, IdOf)[id];
            && Store.UniqueKeys(r.store, IdOf)
            && Store.ToMap(r.store, IdOf) == Store.ToMap(tables, IdOf)[id := after]
            && after.createdAt == before.createdAt && after.updatedAt == w.now
            && after.table.tablename == (if "tablename" in req.body then req.body["tablename"] else before.table.tablename)
            && (if "status" in req.body then StatusName(after.table.status) == req.body["status"]
                else after.table.status == before.table.status)
  {
    var i := FindTable(tables, Field(req.params, "id")).value;
    var d := ApplyUpdate(tables[i], UpdateOf(req.body), w.now);
    Store.ReplaceIsMapUpdate(tables, IdOf, i, d);
    Store.MapAt(tables, IdOf, i);
  }

  /** `deleteTable`: `findByIdAndDelete(id)`, which casts the id first. */
  function DeleteTable(req: Request, tables: Tables, w: World): (r: Handled<Tables, TableBody>)
    ensures r.outcome.Terminal()
    ensures !r.outcome.Respond? ==> r.store == tables
    ensures (w.fault.Some? || Uncastable(Field(req.params, "id"))) ==> r.outcome == Fail(INTERNAL_SERVER_ERROR, DeleteFailed)
    ensures (w.fault.None? && !Uncastable(Field(req.params, "id")) && FindTable(tables, Field(req.params, "id")).None?)
            ==> r.outcome == Fail(NOT_FOUND, NotFound)
    ensures r.outcome.Respond? ==>
              && r.outcome == Respond(OK, Message(Deleted))
              && FindTable(tables, Field(req.params, "id")).Some?
              && r.store == Store.RemoveAt(tables, FindTable(tables, Field(req.params, "id")).value)
    ensures (w.fault.None? && FindTable(tables, Field(req.params, "id")).Some?)
            ==> r == Handled(Respond(OK, Message(Deleted)),
                             Store.RemoveAt(tables, FindTable(tables, Field(req.params, "id")).value))
  {
    if Uncastable(Field(req.params, "id")) || w.fault.Some? then Handled(Fail(INTERNAL_SERVER_ERROR, DeleteFailed), tables)
    else
      match FindTable(tables, Field(req.params, "id"))
      case None => Handled(Fail(NOT_FOUND, NotFound), tables)
      case Some(i) => Handled(Respond(OK, Message(Deleted)), Store.RemoveAt(tables, i))
  }

  /** A successful delete removes exactly that id from the map, so deleting it again is a 404. */
  lemma DeleteTableTwice(req: Request, tables: Tables, w: World)
    requires Store.UniqueKeys(tables, IdOf)
    requires DeleteTable(req, tables, w).outcome.Respond?
    ensures var once := DeleteTable(req, tables, w).store;
            && Store.ToMap(once, IdOf) == Store.ToMap(tables, IdOf) - {Store.CastId(req.params["id"]).value}
            && DeleteTable(req, once, w) == Handled(Fail(NOT_FOUND, NotFound), once)
  {
    var i := FindTable(tables, Field(req.params, "id")).value;
    Store.RemoveIsMapRemoval(tables, IdOf, i);
  }
}
